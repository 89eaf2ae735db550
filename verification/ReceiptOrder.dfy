/** When what a batch of messages supersedes depends on the order of the batch, and when it does not. */
module ReceiptOrder {
  import opened Prelude
  import opened Receipts
  import opened ReceiptRuns

  /** No rearrangement of the batch, under any stored metadata, makes other messages stale. */
  ghost predicate OrderFree(a: seq<Message>) {
    forall registry: Registry, b: seq<Message>, id: int | multiset(b) == multiset(a) ::
      SupersededIn(registry, b, id) <==> SupersededIn(registry, a, id)
  }

  predicate Embeds(m: Message, id: int) {
    m.embedded.Some? && Some(id) in m.embedded.value.supersedes
  }

  predicate Spoke(a: seq<Message>, id: int, sender: string) {
    exists m | m in a :: m.id == id && m.sender == sender
  }

  predicate SpokeOf(a: seq<Message>, id: int, sender: string, target: int) {
    exists m | m in a :: m.id == id && m.sender == sender && Embeds(m, target)
  }

  predicate Alike(a: seq<Message>, x: Message, y: Message, z: Message) {
    Spoke(a, z.id, y.sender) && (Embeds(z, x.id) ==> SpokeOf(a, z.id, y.sender, x.id))
  }

  /** If two messages share an id, the batch holds the same ids from either sender, naming it alike.
      Batches with distinct ids qualify, and so do batches whose repeated ids have one sender. */
  predicate SendersAgree(a: seq<Message>) {
    forall x, y, z | x in a && y in a && z in a && x.id == y.id && z.sender == x.sender :: Alike(a, x, y, z)
  }

  lemma SameMembers(a: seq<Message>, b: seq<Message>)
    requires multiset(a) == multiset(b)
    ensures forall m :: m in a <==> m in b
  {
    assert forall m :: m in a <==> m in multiset(a);
    assert forall m :: m in b <==> m in multiset(b);
  }

  lemma AgreedOneWay(registry: Registry, a: seq<Message>, b: seq<Message>, id: int)
    requires (forall m :: m in a <==> m in b) && SendersAgree(a)
    requires IsSuperseded(registry, Batch(a), a, id)
    ensures IsSuperseded(registry, Batch(b), b, id)
  {
    var z :| z in a && Names(registry, Batch(a), z, id);
    var i := BatchHolds(a, id);
    var j := BatchHolds(b, id);
    if Names(registry, Batch(b), z, id) {
      assert z in b;
    } else {
      var x, y := Batch(a)[id], Batch(b)[id];
      assert Alike(a, x, y, z);
      var m := if z.id in registry.stored && registry.stored[z.id].meta.Some?
        then var m :| m in a && m.id == z.id && m.sender == y.sender; m
        else var m :| m in a && m.id == z.id && m.sender == y.sender && Embeds(m, id); m;
      assert m in b && Names(registry, Batch(b), m, id);
    }
  }

  lemma AgreementCarries(a: seq<Message>, b: seq<Message>)
    requires (forall m :: m in a <==> m in b) && SendersAgree(a)
    ensures SendersAgree(b)
  {
    forall x, y, z | x in b && y in b && z in b && x.id == y.id && z.sender == x.sender ensures Alike(b, x, y, z) {
      assert Alike(a, x, y, z);
    }
  }

  function MovedLast(a: seq<Message>, i: nat): seq<Message>
    requires i < |a|
  {
    a[..i] + a[i + 1..] + [a[i]]
  }

  lemma MovedLastFacts(a: seq<Message>, i: nat)
    requires i < |a|
    ensures multiset(MovedLast(a, i)) == multiset(a)
    ensures a[i].id in Batch(MovedLast(a, i)) && Batch(MovedLast(a, i))[a[i].id] == a[i]
  {
    assert a == a[..i] + [a[i]] + a[i + 1..];
    assert MovedLast(a, i)[..|a| - 1] == a[..i] + a[i + 1..];
  }

  /** Metadata on file that leaves only the messages of one id naming `target`. */
  function Spotlight(a: seq<Message>, id: int, target: int, onFile: bool): Registry {
    var empty := map m | m in a :: m.id := Stored("", Some(Meta(None, [], false)), false);
    var lit := Stored("", Some(Meta(None, [Some(target)], false)), false);
    Registry(if onFile then empty[id := lit] else empty - {id}, {})
  }

  lemma SpotlightNames(a: seq<Message>, b: seq<Message>, id: int, target: int, onFile: bool, m: Message)
    requires m in a && target in Batch(b)
    ensures Names(Spotlight(a, id, target, onFile), Batch(b), m, target)
       <==> m.id == id && (onFile || Embeds(m, target)) && Batch(b)[target].sender == m.sender
  {
    var registry := Spotlight(a, id, target, onFile);
    assert registry.leads == {};
    if m.id == id && onFile {
      assert [Some(target)][0] == Some(target);
    }
  }

  lemma Lit(a: seq<Message>, i: nat, z: Message, onFile: bool)
    requires i < |a| && z in a && z.sender == a[i].sender && (onFile || Embeds(z, a[i].id))
    ensures var b := MovedLast(a, i);
            multiset(b) == multiset(a) && IsSuperseded(Spotlight(a, z.id, a[i].id, onFile), Batch(b), b, a[i].id)
  {
    var b := MovedLast(a, i);
    MovedLastFacts(a, i);
    SameMembers(a, b);
    SpotlightNames(a, b, z.id, a[i].id, onFile, z);
    assert z in b && Names(Spotlight(a, z.id, a[i].id, onFile), Batch(b), z, a[i].id);
  }

  lemma Dark(a: seq<Message>, j: nat, id: int, onFile: bool)
    requires j < |a|
    requires if onFile then !Spoke(a, id, a[j].sender) else !SpokeOf(a, id, a[j].sender, a[j].id)
    ensures var c := MovedLast(a, j);
            multiset(c) == multiset(a) && !IsSuperseded(Spotlight(a, id, a[j].id, onFile), Batch(c), c, a[j].id)
  {
    var c := MovedLast(a, j);
    MovedLastFacts(a, j);
    SameMembers(a, c);
    forall m | m in c ensures !Names(Spotlight(a, id, a[j].id, onFile), Batch(c), m, a[j].id) {
      SpotlightNames(a, c, id, a[j].id, onFile, m);
    }
  }

  lemma TwoOutcomes(a: seq<Message>, registry: Registry, b: seq<Message>, c: seq<Message>, id: int)
    requires multiset(b) == multiset(a) && multiset(c) == multiset(a)
    requires IsSuperseded(registry, Batch(b), b, id) && !IsSuperseded(registry, Batch(c), c, id)
    ensures !OrderFree(a)
  {
    SupersededIs(registry, b, id);
    SupersededIs(registry, c, id);
    assert SupersededIn(registry, b, id) && !SupersededIn(registry, c, id);
  }

  lemma DisagreementShows(a: seq<Message>, i: nat, j: nat, z: Message)
    requires i < |a| && j < |a| && z in a && a[i].id == a[j].id && z.sender == a[i].sender && !Alike(a, a[i], a[j], z)
    ensures !OrderFree(a)
  {
    var onFile := !Spoke(a, z.id, a[j].sender);
    Lit(a, i, z, onFile);
    Dark(a, j, z.id, onFile);
    TwoOutcomes(a, Spotlight(a, z.id, a[i].id, onFile), MovedLast(a, i), MovedLast(a, j), a[i].id);
  }

  /** What a batch makes stale is independent of the order of its messages exactly when its senders
      agree. */
  lemma OrderFreeExact(a: seq<Message>)
    ensures OrderFree(a) <==> SendersAgree(a)
  {
    if SendersAgree(a) {
      forall registry: Registry, b: seq<Message>, id: int | multiset(b) == multiset(a)
        ensures SupersededIn(registry, b, id) <==> SupersededIn(registry, a, id)
      {
        SupersededIs(registry, a, id);
        SupersededIs(registry, b, id);
        SameMembers(a, b);
        AgreementCarries(a, b);
        if IsSuperseded(registry, Batch(a), a, id) { AgreedOneWay(registry, a, b, id); }
        if IsSuperseded(registry, Batch(b), b, id) { AgreedOneWay(registry, b, a, id); }
      }
    } else {
      var x, y, z :| x in a && y in a && z in a && x.id == y.id && z.sender == x.sender && !Alike(a, x, y, z);
      var i :| 0 <= i < |a| && a[i] == x;
      var j :| 0 <= j < |a| && a[j] == y;
      DisagreementShows(a, i, j, z);
    }
  }

  /** Distinct ids, which is what the Hub delivers, are enough. */
  lemma DistinctIdsAgree(a: seq<Message>)
    requires forall x, y | x in a && y in a && x.id == y.id :: x == y
    ensures SendersAgree(a)
  {
    forall x, y, z | x in a && y in a && z in a && x.id == y.id && z.sender == x.sender ensures Alike(a, x, y, z) {
      assert x == y;
    }
  }

  /** Two senders under one id: the last one of the batch is believed. */
  lemma RepeatedIdsBreakOrder()
    ensures var naming := Meta(None, [Some(1)], false);
            !OrderFree([Message(1, "x", None), Message(1, "y", None), Message(2, "x", Some(naming))])
  {
    var a := [Message(1, "x", None), Message(1, "y", None), Message(2, "x", Some(Meta(None, [Some(1)], false)))];
    assert !Spoke(a, 2, "y");
    DisagreementShows(a, 0, 1, a[2]);
  }
}
