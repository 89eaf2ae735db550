/** The search as it runs, on an explicit stack, against the recursive listing. */
module SearchLoop {
  import opened Prelude
  import opened Search

  datatype Frame = Frame(path: Path, entries: seq<Node>)

  /** What the directories on the stack still stand for, the top first. */
  function Pending(stack: seq<Frame>): seq<Item> {
    if stack == [] then []
    else
      var top := stack[|stack| - 1];
      Listing(top.path, top.entries) + Pending(stack[..|stack| - 1])
  }

  function Children(path: Path, entries: seq<Node>): seq<Frame> {
    if entries == [] then []
    else
      var front, last := Children(path, entries[..|entries| - 1]), entries[|entries| - 1];
      if last.Dir? && !Skipped(last) then front + [Frame(path + [last.name], last.entries)] else front
  }

  function Reversed<T>(s: seq<T>): (r: seq<T>)
    ensures |r| == |s|
  {
    if s == [] then [] else [s[|s| - 1]] + Reversed(s[..|s| - 1])
  }

  lemma PendingPush(rest: seq<Frame>, frame: Frame)
    ensures Pending(rest + [frame]) == Listing(frame.path, frame.entries) + Pending(rest)
  {
    assert (rest + [frame])[..|rest|] == rest;
  }

  lemma ReversedAppend<T>(s: seq<T>, x: T)
    ensures Reversed(s + [x]) == [x] + Reversed(s)
  {
    assert (s + [x])[..|s|] == s;
  }

  lemma AppendMoved<T>(a: seq<T>, x: T, b: seq<T>)
    ensures a + ([x] + b) == (a + [x]) + b
  {
  }

  /** Children pushed in reverse come off the stack in order. */
  lemma {:induction false} PushedInReverse(rest: seq<Frame>, path: Path, entries: seq<Node>)
    ensures Pending(rest + Reversed(Children(path, entries))) == Deeper(path, entries) + Pending(rest)
    decreases |entries|
  {
    if entries == [] {
      assert rest + [] == rest;
    } else {
      var front, last := entries[..|entries| - 1], entries[|entries| - 1];
      if last.Dir? && !Skipped(last) {
        var frame := Frame(path + [last.name], last.entries);
        PushedInReverse(rest + [frame], path, front);
        ReversedAppend(Children(path, front), frame);
        AppendMoved(rest, frame, Reversed(Children(path, front)));
        PendingPush(rest, frame);
        Associates(Deeper(path, front), Listing(frame.path, frame.entries), Pending(rest));
      } else {
        PushedInReverse(rest, path, front);
      }
    }
  }

  lemma Associates<T>(a: seq<T>, b: seq<T>, c: seq<T>)
    ensures a + (b + c) == (a + b) + c
  {
  }

  lemma {:induction false} FewChildren(path: Path, entries: seq<Node>)
    ensures |Children(path, entries)| <= |Own(path, entries)|
  {
    if entries != [] { FewChildren(path, entries[..|entries| - 1]); }
  }

  /** One entry, against both budgets. */
  method Tally(before: nat, found: seq<Item>, item: Item, query: Query, fold: string -> string, limit: nat)
    returns (scanned: nat, results: seq<Item>, truncated: bool)
    ensures Scan(scanned, results, truncated) == Count(Scan(before, found, false), item, query, fold, limit)
  {
    scanned, results, truncated := before + 1, found, false;
    if scanned > MAX_SEARCH_ENTRIES {
      truncated := true;
    } else if Matches(item, query, fold) {
      results := results + [item];
      if |results| > limit {
        results := results[..|results| - 1];
        truncated := true;
      }
    }
  }

  /** One directory, entry by entry; `children` matters only when the scan goes on. */
  method ScanDirectory(path: Path, entries: seq<Node>, query: Query, fold: string -> string, limit: nat, before: Scan)
    returns (scan: Scan, children: seq<Frame>)
    requires !before.truncated
    ensures scan == CountAll(before, Own(path, entries), query, fold, limit)
    ensures !scan.truncated ==> children == Children(path, entries)
  {
    var scanned: nat, results, truncated := before.scanned, before.results, false;
    children := [];
    var i := 0;
    while i < |entries|
      invariant 0 <= i <= |entries| && !truncated
      invariant Scan(scanned, results, false) == CountAll(before, Own(path, entries[..i]), query, fold, limit)
      invariant children == Children(path, entries[..i])
    {
      var entry := entries[i];
      assert entries[..i + 1][..i] == entries[..i];
      i := i + 1;
      if entry.Dir? && entry.name in SEARCH_SKIP_DIRS { continue; }
      var item := Item(path + [entry.name], entry);
      OwnStep(path, entries, i, query, fold, limit, before);
      scanned, results, truncated := Tally(scanned, results, item, query, fold, limit);
      if truncated { break; }
      if entry.Dir? { children := children + [Frame(item.path, entry.entries)]; }
    }
    scan := Scan(scanned, results, truncated);
    assert entries[..|entries|] == entries;
  }

  /** The scan of the first `i` entries in terms of one entry less; a truncated one is the scan of all. */
  lemma OwnStep(path: Path, entries: seq<Node>, i: nat, query: Query, fold: string -> string, limit: nat, before: Scan)
    requires 0 < i <= |entries| && !Skipped(entries[i - 1])
    ensures var scan := CountAll(before, Own(path, entries[..i]), query, fold, limit);
            && scan == Count(CountAll(before, Own(path, entries[..i - 1]), query, fold, limit),
                             Item(path + [entries[i - 1].name], entries[i - 1]), query, fold, limit)
            && (scan.truncated ==> scan == CountAll(before, Own(path, entries), query, fold, limit))
  {
    assert entries[..i][..i - 1] == entries[..i - 1];
    var more := OwnRest(path, entries, i);
    CountAppend(before, Own(path, entries[..i]), more, query, fold, limit);
    var scan := CountAll(before, Own(path, entries[..i]), query, fold, limit);
    if scan.truncated { TruncatedStays(scan, more, query, fold, limit); }
    var item := Item(path + [entries[i - 1].name], entries[i - 1]);
    CountOne(before, Own(path, entries[..i - 1]), item, query, fold, limit);
  }

  lemma CountOne(before: Scan, items: seq<Item>, item: Item, query: Query, fold: string -> string, limit: nat)
    ensures CountAll(before, items + [item], query, fold, limit) ==
            Count(CountAll(before, items, query, fold, limit), item, query, fold, limit)
  {
    assert (items + [item])[..|items|] == items;
  }

  lemma {:induction false} OwnRest(path: Path, entries: seq<Node>, i: nat) returns (more: seq<Item>)
    requires i <= |entries|
    ensures Own(path, entries) == Own(path, entries[..i]) + more
  {
    if i == |entries| {
      assert entries[..i] == entries;
      more := [];
    } else {
      var front, last := entries[..|entries| - 1], entries[|entries| - 1];
      assert front[..i] == entries[..i];
      var rest := OwnRest(path, front, i);
      more := if Skipped(last) then rest else rest + [Item(path + [last.name], last)];
    }
  }

  /** Taking the top directory and pushing its children leaves the outcome as it was, and less to do. */
  lemma PopStep(stack: seq<Frame>, scan: Scan, query: Query, fold: string -> string, limit: nat)
    requires stack != []
    ensures var top := stack[|stack| - 1];
            var next := stack[..|stack| - 1] + Reversed(Children(top.path, top.entries));
            var after := CountAll(scan, Own(top.path, top.entries), query, fold, limit);
            && CountAll(scan, Pending(stack), query, fold, limit) ==
                 (if after.truncated then after else CountAll(after, Pending(next), query, fold, limit))
            && |Pending(next)| + |next| < |Pending(stack)| + |stack|
  {
    var top, rest := stack[|stack| - 1], stack[..|stack| - 1];
    var own, later := Own(top.path, top.entries), Deeper(top.path, top.entries) + Pending(rest);
    Associates(own, Deeper(top.path, top.entries), Pending(rest));
    CountAppend(scan, own, later, query, fold, limit);
    var after := CountAll(scan, own, query, fold, limit);
    if after.truncated { TruncatedStays(after, later, query, fold, limit); }
    PushedInReverse(rest, top.path, top.entries);
    FewChildren(top.path, top.entries);
  }

  /** The loop over the stack. */
  method Walk(root: seq<Node>, query: Query, fold: string -> string, limit: nat) returns (r: (seq<Item>, bool))
    ensures r == Found(Listing([], root), query, fold, limit)
  {
    ghost var goal := CountAll(START, Listing([], root), query, fold, limit);
    var scan := START;
    var stack := [Frame([], root)];
    assert Pending(stack) == Listing([], root) + Pending([]) == Listing([], root);
    while stack != []
      invariant !scan.truncated && CountAll(scan, Pending(stack), query, fold, limit) == goal
      decreases |Pending(stack)| + |stack|
    {
      var top := stack[|stack| - 1];
      PopStep(stack, scan, query, fold, limit);
      var children;
      scan, children := ScanDirectory(top.path, top.entries, query, fold, limit, scan);
      if scan.truncated { break; }
      stack := stack[..|stack| - 1] + Reversed(children);
    }
    CountExact(Listing([], root), query, fold, limit);
    r := (scan.results, scan.truncated);
  }

  datatype SearchError = Unavailable

  /** `search_files_from_trusted_root` below an opened directory. */
  method SearchFiles(root: seq<Node>, query: string, limit: int, fold: string -> string)
    returns (r: Result<(seq<Item>, bool), SearchError>)
    ensures r == if Strip(query) == "" || |Strip(query)| > 128 || !(1 <= limit <= 200)
            then Err(Unavailable)
                 else Ok(Found(Listing([], root), NormalizeQuery(Strip(query), fold), fold, limit))
  {
    var stripped := Strip(query);
    if stripped == "" || |stripped| > 128 || limit < 1 || limit > MAX_SEARCH_RESULTS { return Err(Unavailable); }
    var found := Walk(root, NormalizeQuery(stripped, fold), fold, limit);
    return Ok(found);
  }
}
