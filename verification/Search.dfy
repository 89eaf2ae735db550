/**
 Searching an authorised tree for files: what the bounded search visits and returns.

 A directory's entries stand in the order `_bound_directory_entries` gives them; reading the tree is
 assumed to succeed.  `fold` is the case folding of the Python library.
 */
module Search {
  import opened Prelude
  import opened Text
  import ArtifactPaths

  const MAX_SEARCH_RESULTS: nat := 200
  const MAX_SEARCH_ENTRIES: nat := 20_000
  const SEARCH_SKIP_DIRS := {".git", ".venv", "node_modules", "__pycache__"}

  datatype Node = File(name: string, size: nat) | Dir(name: string, entries: seq<Node>)

  type Path = seq<string>

  datatype Item = Item(path: Path, node: Node)

  // ---------------------------------------------------------------- query

  function ForwardSlashes(text: string): string {
    seq(|text|, i requires 0 <= i < |text| => if text[i] == '\\' then '/' else text[i])
  }

  function Strip(text: string): string {
    var r := RStrip(text);
    r[Leading(r, IsSpace)..]
  }

  function StripSlashes(text: string): string {
    var front := text[Leading(text, c => c == '/')..];
    if front != "" && front[|front| - 1] == '/' then StripSlashes(front[..|front| - 1]) else front
  }

  /** How many characters at the start satisfy `p`. */
  function Leading(text: string, p: char -> bool): (n: nat)
    ensures n <= |text| && (forall i | 0 <= i < n :: p(text[i])) && (n < |text| ==> !p(text[n]))
  {
    if text != "" && p(text[0]) then 1 + Leading(text[1..], p) else 0
  }

  /** The needle, and whether only a path prefix is meant. */
  datatype Query = Query(needle: string, prefix: bool)

  function NormalizeQuery(query: string, fold: string -> string): Query {
    var raw := Strip(ForwardSlashes(query));
    Query(fold(StripSlashes(raw)), raw != "" && raw[|raw| - 1] == '/')
  }

  function Relative(path: Path): string {
    if path == [] then "" else if |path| == 1 then path[0] else Relative(path[..|path| - 1]) + "/" + path[|path| - 1]
  }

  predicate Matches(item: Item, query: Query, fold: string -> string) {
    var rel := fold(ForwardSlashes(Relative(item.path)));
    if query.prefix then rel == query.needle || query.needle + "/" <= rel
    else Contains(fold(item.node.name), query.needle) || Contains(rel, query.needle)
  }

  function Matching(items: seq<Item>, query: Query, fold: string -> string): seq<Item> {
    if items == [] then []
    else
      var front, last := Matching(items[..|items| - 1], query, fold), items[|items| - 1];
      if Matches(last, query, fold) then front + [last] else front
  }

  // ---------------------------------------------------------------- what a query means

  /** Backslashes are read as slashes, and every other character as itself. */
  lemma SlashesExactly(text: string)
    ensures var t := ForwardSlashes(text);
            |t| == |text| && forall i | 0 <= i < |t| ::
              (text[i] == '\\' ==> t[i] == '/') && (text[i] != '\\' ==> t[i] == text[i])
  {
  }

  /** `core` is the text from `i` to `j`: what is left of the text without what `strips` at its ends. */
  ghost predicate StrippedTo(text: string, core: string, i: nat, j: nat, strips: char -> bool) {
    && i <= j <= |text| && core == text[i..j]
    && (forall k | 0 <= k < i :: strips(text[k])) && (forall k | j <= k < |text| :: strips(text[k]))
    && (i < j ==> !strips(text[i]) && !strips(text[j - 1]))
  }

  lemma {:induction false} EndStripped(front: string) returns (j: nat)
    requires front == "" || front[0] != '/'
    ensures j <= |front| && StripSlashes(front) == front[..j]
    ensures (forall k | j <= k < |front| :: front[k] == '/') && (j > 0 ==> front[j - 1] != '/')
    decreases |front|
  {
    assert front[0..] == front;
    j := |front|;
    if front != "" && front[j - 1] == '/' {
      var short := front[..j - 1];
      j := EndStripped(short);
      assert short[..j] == front[..j];
    }
  }

  lemma StripSlashesIs(text: string) returns (i: nat, j: nat)
    ensures StrippedTo(text, StripSlashes(text), i, j, c => c == '/')
  {
    i := Leading(text, c => c == '/');
    var front := text[i..];
    var n := EndStripped(front);
    j := i + n;
    assert front[0..] == front;
    assert front[..n] == text[i..j];
    forall k | j <= k < |text| ensures text[k] == '/' { assert text[k] == front[k - i]; }
    if n > 0 { assert front[n - 1] == text[j - 1]; }
  }

  lemma StripIs(text: string) returns (i: nat, j: nat)
    ensures StrippedTo(text, Strip(text), i, j, IsSpace)
  {
    var r := RStrip(text);
    i, j := Leading(r, IsSpace), |r|;
    assert r == text[..j];
  }

  /** The needle is the folded query without the white space and the slashes around it; only a path prefix is
      meant exactly if the query ends in a slash (or backslash), white space aside. */
  lemma QueryExactly(query: string, fold: string -> string)
    returns (raw: string, i: nat, j: nat, core: string, k: nat, l: nat)
    ensures StrippedTo(ForwardSlashes(query), raw, i, j, IsSpace) && StrippedTo(raw, core, k, l, c => c == '/')
    ensures NormalizeQuery(query, fold) == Query(fold(core), raw != "" && raw[|raw| - 1] == '/')
  {
    raw := Strip(ForwardSlashes(query));
    core := StripSlashes(raw);
    i, j := StripIs(ForwardSlashes(query));
    k, l := StripSlashesIs(raw);
  }

  lemma {:induction false} RelativeIsJoin(path: Path)
    ensures Relative(path) == ArtifactPaths.Join(path)
  {
    if |path| > 1 {
      RelativeIsJoin(path[..|path| - 1]);
      JoinLast(path[..|path| - 1], path[|path| - 1]);
      assert path[..|path| - 1] + [path[|path| - 1]] == path;
    }
  }

  lemma {:induction false} JoinLast(front: Path, last: string)
    requires front != []
    ensures ArtifactPaths.Join(front + [last]) == ArtifactPaths.Join(front) + "/" + last
  {
    if |front| > 1 {
      JoinLast(front[1..], last);
      assert (front + [last])[1..] == front[1..] + [last];
    } else {
      assert (front + [last])[1..] == [last];
    }
  }

  /** The pattern stands somewhere in the text. */
  ghost predicate Within(text: string, pattern: string) {
    exists left, right :: text == left + pattern + right
  }

  lemma ContainsIs(text: string, pattern: string)
    ensures Contains(text, pattern) <==> Within(text, pattern)
  {
    if i :| 0 <= i <= |text| && OccursAt(text, pattern, i) {
      assert text == text[..i] + pattern + text[i + |pattern|..];
    }
    if left, right :| text == left + pattern + right {
      assert OccursAt(text, pattern, |left|);
    }
  }

  /** With a prefix query an item is found exactly if its folded path is the needle or lies below it, and else
      exactly if the needle stands somewhere in its folded path or its folded name. */
  lemma MatchExactly(item: Item, query: Query, fold: string -> string)
    ensures var path := fold(ForwardSlashes(ArtifactPaths.Join(item.path)));
            Matches(item, query, fold) <==>
            if query.prefix then path == query.needle || exists below :: path == query.needle + "/" + below
            else Within(path, query.needle) || Within(fold(item.node.name), query.needle)
  {
    RelativeIsJoin(item.path);
    var path, head := fold(ForwardSlashes(Relative(item.path))), query.needle + "/";
    if head <= path { assert path == head + path[|head|..]; }
    ContainsIs(path, query.needle);
    ContainsIs(fold(item.node.name), query.needle);
  }

  /** The items that match, in order. */
  lemma {:induction false} MatchingExactly(items: seq<Item>, query: Query, fold: string -> string)
    returns (at: seq<nat>)
    ensures TakenAt(Matching(items, query, fold), items, at)
    ensures forall i | 0 <= i < |items| :: i in at <==> Matches(items[i], query, fold)
  {
    if items == [] {
      at := [];
    } else {
      var front, last := items[..|items| - 1], items[|items| - 1];
      assert items == front + [last];
      var before := MatchingExactly(front, query, fold);
      TakenNext(Matching(front, query, fold), front, before, last);
      at := if Matches(last, query, fold) then before + [|front|] else before;
    }
  }

  // ---------------------------------------------------------------- what a full search visits

  predicate Skipped(node: Node) {
    node.Dir? && node.name in SEARCH_SKIP_DIRS
  }

  /** A directory's own entries in order. */
  function Own(path: Path, entries: seq<Node>): seq<Item> {
    if entries == [] then []
    else
      var front, last := Own(path, entries[..|entries| - 1]), entries[|entries| - 1];
      if Skipped(last) then front else front + [Item(path + [last.name], last)]
  }

  /** The recursive listing: a directory's entries, then the listings of its subdirectories. */
  function Listing(path: Path, entries: seq<Node>): seq<Item>
    decreases entries, 1
  {
    Own(path, entries) + Deeper(path, entries)
  }

  function Deeper(path: Path, entries: seq<Node>): seq<Item>
    decreases entries, 0
  {
    if entries == [] then []
    else
      var last := entries[|entries| - 1];
      Deeper(path, entries[..|entries| - 1]) +
      if last.Dir? && !Skipped(last) then Listing(path + [last.name], last.entries) else []
  }

  // ---------------------------------------------------------------- the scan, item by item

  datatype Scan = Scan(scanned: nat, results: seq<Item>, truncated: bool)

  const START := Scan(0, [], false)

  function Count(s: Scan, item: Item, query: Query, fold: string -> string, limit: nat): Scan {
    if s.truncated then s
    else if s.scanned + 1 > MAX_SEARCH_ENTRIES then Scan(s.scanned + 1, s.results, true)
    else if !Matches(item, query, fold) then s.(scanned := s.scanned + 1)
    else if |s.results| + 1 > limit then Scan(s.scanned + 1, s.results, true)
    else Scan(s.scanned + 1, s.results + [item], false)
  }

  function CountAll(s: Scan, items: seq<Item>, query: Query, fold: string -> string, limit: nat): Scan {
    if items == [] then s
    else Count(CountAll(s, items[..|items| - 1], query, fold, limit), items[|items| - 1], query, fold, limit)
  }

  lemma {:induction false} CountAppend(s: Scan, a: seq<Item>, b: seq<Item>, query: Query, fold: string -> string,
                                       limit: nat)
    ensures CountAll(s, a + b, query, fold, limit) ==
            CountAll(CountAll(s, a, query, fold, limit), b, query, fold, limit)
  {
    if b == [] {
      assert a + b == a;
    } else {
      assert (a + b)[..|a + b| - 1] == a + b[..|b| - 1];
      CountAppend(s, a, b[..|b| - 1], query, fold, limit);
    }
  }

  lemma {:induction false} TruncatedStays(s: Scan, items: seq<Item>, query: Query, fold: string -> string, limit: nat)
    requires s.truncated
    ensures CountAll(s, items, query, fold, limit) == s
  {
    if items != [] { TruncatedStays(s, items[..|items| - 1], query, fold, limit); }
  }

  // ---------------------------------------------------------------- closed form

  function Min(a: nat, b: nat): nat {
    if a < b then a else b
  }

  function Firsts<T>(items: seq<T>, n: nat): seq<T> {
    items[..Min(n, |items|)]
  }

  /** The result of a search with this limit over everything it could visit. */
  function Found(visits: seq<Item>, query: Query, fold: string -> string, limit: nat): (seq<Item>, bool) {
    var seen := Matching(Firsts(visits, MAX_SEARCH_ENTRIES), query, fold);
    (Firsts(seen, limit), |visits| > MAX_SEARCH_ENTRIES || |seen| > limit)
  }

  ghost predicate ScanIs(s: Scan, visits: seq<Item>, query: Query, fold: string -> string, limit: nat) {
    && (s.results, s.truncated) == Found(visits, query, fold, limit)
    && (!s.truncated ==> s.scanned == |visits|)
  }

  lemma {:induction false} CountExact(visits: seq<Item>, query: Query, fold: string -> string, limit: nat)
    ensures ScanIs(CountAll(START, visits, query, fold, limit), visits, query, fold, limit)
  {
    if visits != [] {
      var n := |visits| - 1;
      CountExact(visits[..n], query, fold, limit);
      if |visits| <= MAX_SEARCH_ENTRIES {
        assert Firsts(visits, MAX_SEARCH_ENTRIES) == visits;
        assert Firsts(visits[..n], MAX_SEARCH_ENTRIES) == visits[..n];
        var before, after := Matching(visits[..n], query, fold), Matching(visits, query, fold);
        assert before <= after && |after| <= |before| + 1;
        if |before| > limit {
          assert Firsts(after, limit) == Firsts(before, limit);
        } else if |after| > limit {
          assert Firsts(after, limit) == before == Firsts(before, limit);
        } else {
          assert Firsts(after, limit) == after && Firsts(before, limit) == before;
        }
      } else {
        assert Firsts(visits, MAX_SEARCH_ENTRIES) == Firsts(visits[..n], MAX_SEARCH_ENTRIES);
      }
    }
  }

  lemma {:induction false} MatchingPrefix(items: seq<Item>, n: nat, query: Query, fold: string -> string)
    requires n <= |items|
    ensures Matching(items[..n], query, fold) <= Matching(items, query, fold)
  {
    if n < |items| {
      MatchingPrefix(items[..|items| - 1], n, query, fold);
      assert items[..|items| - 1][..n] == items[..n];
    } else {
      assert items[..n] == items;
    }
  }

  /** The results are a prefix of the matches in the full recursive listing; all of them when the search
      is not truncated, and it is not truncated exactly when everything fits. */
  lemma FoundIsPrefix(visits: seq<Item>, query: Query, fold: string -> string, limit: nat)
    ensures var (results, truncated) := Found(visits, query, fold, limit);
            && results <= Matching(visits, query, fold)
            && |results| <= limit
            && (!truncated ==> results == Matching(visits, query, fold))
            && (truncated <==> |visits| > 20_000 || |Matching(visits, query, fold)| > limit)
  {
    MatchingPrefix(visits, Min(MAX_SEARCH_ENTRIES, |visits|), query, fold);
    if |visits| <= MAX_SEARCH_ENTRIES { assert Firsts(visits, MAX_SEARCH_ENTRIES) == visits; }
  }

  // ---------------------------------------------------------------- what the listing holds

  /** Inductive reading: `node` stands at `path`, below directories that are not skipped. */
  ghost predicate Stands(entries: seq<Node>, path: Path, node: Node)
    decreases |path|
  {
    && path != []
    && exists e | e in entries :: StandsUnder(e, path, node)
  }

  ghost predicate StandsUnder(e: Node, path: Path, node: Node)
    requires path != []
    decreases |path|, 0
  {
    && e.name == path[0]
    && !(e.Dir? && (e.name == ".git" || e.name == ".venv" || e.name == "node_modules" || e.name == "__pycache__"))
    && if |path| == 1 then e == node else e.Dir? && Stands(e.entries, path[1..], node)
  }

  ghost predicate StandsBelow(e: Node, q: Path, node: Node) {
    |q| >= 2 && e.Dir? && !Skipped(e) && e.name == q[0] && Stands(e.entries, q[1..], node)
  }

  lemma {:induction false} OwnHolds(path: Path, entries: seq<Node>, item: Item)
    ensures item in Own(path, entries) <==>
            item.node in entries && !Skipped(item.node) && item.path == path + [item.node.name]
  {
    if entries != [] { OwnHolds(path, entries[..|entries| - 1], item); }
  }

  lemma {:induction false} DeeperHolds(path: Path, entries: seq<Node>, item: Item)
    ensures item in Deeper(path, entries) <==>
            path <= item.path && exists e | e in entries :: StandsBelow(e, item.path[|path|..], item.node)
    decreases entries, 0
  {
    if entries != [] {
      var front, last := entries[..|entries| - 1], entries[|entries| - 1];
      DeeperHolds(path, front, item);
      assert forall e :: e in entries <==> e in front || e == last;
      if last.Dir? && !Skipped(last) {
        ListingHolds(path + [last.name], last.entries, item);
        if path <= item.path {
          var q := item.path[|path|..];
          assert path + [last.name] <= item.path <==> q != [] && q[0] == last.name;
          if q != [] && q[0] == last.name { assert item.path[|path + [last.name]|..] == q[1..]; }
          assert item in Listing(path + [last.name], last.entries) <==> StandsBelow(last, q, item.node);
        } else {
          assert path + [last.name] <= item.path ==> path <= item.path;
        }
      }
    }
  }

  /** The listing holds exactly what stands in the tree outside skipped directories. */
  lemma {:induction false} ListingHolds(path: Path, entries: seq<Node>, item: Item)
    ensures item in Listing(path, entries) <==>
            path <= item.path && Stands(entries, item.path[|path|..], item.node)
    decreases entries, 1
  {
    OwnHolds(path, entries, item);
    DeeperHolds(path, entries, item);
    if path <= item.path {
      var q := item.path[|path|..];
      assert item.path == path + [item.node.name] <==> q == [item.node.name];
      if q != [] {
        assert forall e | e in entries ::
          StandsUnder(e, q, item.node) <==>
            StandsBelow(e, q, item.node) || (|q| == 1 && e == item.node && e.name == q[0] && !Skipped(e));
      }
    }
  }

  // ---------------------------------------------------------------- once each

  /** Sibling names differ, as in any file system. */
  predicate UniqueNames(entries: seq<Node>) {
    && (forall i, j | 0 <= i < j < |entries| :: entries[i].name != entries[j].name)
    && (forall e | e in entries :: e.Dir? ==> UniqueNames(e.entries))
  }

  ghost predicate DistinctPaths(items: seq<Item>) {
    forall i, j | 0 <= i < j < |items| :: items[i].path != items[j].path
  }

  lemma DistinctJoin(a: seq<Item>, b: seq<Item>)
    requires DistinctPaths(a) && DistinctPaths(b) && forall x, y | x in a && y in b :: x.path != y.path
    ensures DistinctPaths(a + b)
  {
    assert forall i | 0 <= i < |a| :: a[i] in a;
    assert forall i | 0 <= i < |b| :: b[i] in b;
  }

  lemma {:induction false} OwnDistinct(path: Path, entries: seq<Node>)
    requires UniqueNames(entries)
    ensures DistinctPaths(Own(path, entries))
  {
    if entries != [] {
      var front, last := entries[..|entries| - 1], entries[|entries| - 1];
      OwnDistinct(path, front);
      var item := Item(path + [last.name], last);
      forall x | x in Own(path, front) ensures x.path != item.path {
        OwnHolds(path, front, x);
        assert x.path[|path|] == x.node.name && item.path[|path|] == last.name;
      }
      DistinctJoin(Own(path, front), [item]);
    }
  }

  lemma {:induction false} DeeperDistinct(path: Path, entries: seq<Node>)
    requires UniqueNames(entries)
    ensures DistinctPaths(Deeper(path, entries))
    decreases entries, 0
  {
    if entries != [] {
      var front, last := entries[..|entries| - 1], entries[|entries| - 1];
      DeeperDistinct(path, front);
      if last.Dir? && !Skipped(last) {
        var below := Listing(path + [last.name], last.entries);
        ListingDistinct(path + [last.name], last.entries);
        forall x, y | x in Deeper(path, front) && y in below ensures x.path != y.path {
          DeeperHolds(path, front, x);
          ListingHolds(path + [last.name], last.entries, y);
          assert y.path[|path|] == last.name;
          var e :| e in front && StandsBelow(e, x.path[|path|..], x.node);
          assert x.path[|path|] == e.name;
        }
        DistinctJoin(Deeper(path, front), below);
      }
    }
  }

  /** No entry is visited twice. */
  lemma {:induction false} ListingDistinct(path: Path, entries: seq<Node>)
    requires UniqueNames(entries)
    ensures DistinctPaths(Listing(path, entries))
    decreases entries, 1
  {
    OwnDistinct(path, entries);
    DeeperDistinct(path, entries);
    forall x, y | x in Own(path, entries) && y in Deeper(path, entries) ensures x.path != y.path {
      OwnHolds(path, entries, x);
      DeeperHolds(path, entries, y);
    }
    DistinctJoin(Own(path, entries), Deeper(path, entries));
  }
}
