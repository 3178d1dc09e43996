/**
  The update batches the per-document stage loops build: each candidate document either
  yields one entry or none (its failure caught and skipped), and the batch is the entries
  in candidate order. What such a batch does to the store follows from the upsert.
*/
module Batches {
  import opened Wrappers
  import opened Documents
  import MongoStore

  /** The entries appended by a loop whose per-document outcomes are `xs`, in order. */
  function Somes<T>(xs: seq<Option<T>>): (r: seq<T>)
    ensures |r| <= |xs|
    decreases |xs|
  {
    if xs == [] then []
    else Somes(xs[..|xs| - 1]) + (if xs[|xs| - 1].Some? then [xs[|xs| - 1].value] else [])
  }

  lemma SomesSnoc<T>(xs: seq<Option<T>>, x: Option<T>)
    ensures Somes(xs + [x]) == Somes(xs) + (if x.Some? then [x.value] else [])
  {
    assert (xs + [x])[..|xs|] == xs;
  }

  /** One more document's outcome: the loop invariant's step. */
  lemma SomesStep<T>(xs: seq<Option<T>>, i: nat)
    requires i < |xs|
    ensures Somes(xs[..i + 1]) == Somes(xs[..i]) + (if xs[i].Some? then [xs[i].value] else [])
  {
    assert xs[..i + 1] == xs[..i] + [xs[i]];
    SomesSnoc(xs[..i], xs[i]);
  }

  /**
    The successful document `i` has its entry at position "number of successes before `i`":
    one entry per success, in candidate order.
  */
  lemma {:induction false} SomesPosition<T>(xs: seq<Option<T>>, i: nat)
    requires i < |xs| && xs[i].Some?
    ensures |Somes(xs[..i])| < |Somes(xs)|
    ensures Somes(xs)[|Somes(xs[..i])|] == xs[i].value
    decreases |xs|
  {
    var n := |xs| - 1;
    assert xs == xs[..n] + [xs[n]];
    SomesSnoc(xs[..n], xs[n]);
    if i < n {
      assert xs[..n][..i] == xs[..i];
      SomesPosition(xs[..n], i);
    } else {
      assert xs[..i] == xs[..n];
    }
  }

  /** A later success has its entry later. */
  lemma {:induction false} SomesPrefixGrows<T>(xs: seq<Option<T>>, i: nat, j: nat)
    requires i < j <= |xs| && xs[i].Some?
    ensures |Somes(xs[..i])| < |Somes(xs[..j])|
    decreases j
  {
    assert xs[..j] == xs[..j - 1] + [xs[j - 1]];
    SomesSnoc(xs[..j - 1], xs[j - 1]);
    if i < j - 1 {
      SomesPrefixGrows(xs, i, j - 1);
    } else {
      assert xs[..j][..i] == xs[..i];
    }
  }

  /** Every entry comes from some document's outcome, and every success gives one. */
  lemma {:induction false} SomesMembers<T>(xs: seq<Option<T>>, y: T)
    ensures y in Somes(xs) <==> Some(y) in xs
    decreases |xs|
  {
    if xs != [] {
      var n := |xs| - 1;
      assert xs == xs[..n] + [xs[n]];
      SomesSnoc(xs[..n], xs[n]);
      SomesMembers(xs[..n], y);
    }
  }

  /** When every document fails the batch is empty. */
  lemma {:induction false} SomesAllNone<T>(xs: seq<Option<T>>)
    requires forall i :: 0 <= i < |xs| ==> xs[i].None?
    ensures Somes(xs) == []
    decreases |xs|
  {
    if xs != [] {
      SomesAllNone(xs[..|xs| - 1]);
    }
  }

  /** When every document succeeds there is one entry per document, entry `i` from document `i`. */
  lemma {:induction false} SomesAllSome<T>(xs: seq<Option<T>>)
    requires forall i :: 0 <= i < |xs| ==> xs[i].Some?
    ensures |Somes(xs)| == |xs|
    ensures forall i :: 0 <= i < |xs| ==> Somes(xs)[i] == xs[i].value
    decreases |xs|
  {
    if xs != [] {
      SomesAllSome(xs[..|xs| - 1]);
    }
  }

  /** Each outcome, when there is one, is an entry for its own document. */
  predicate EntriesFor(items: seq<Doc>, outs: seq<Option<Doc>>) {
    |outs| == |items| && forall i :: 0 <= i < |items| ==> outs[i].Some? ==> outs[i].value.id == items[i].id
  }

  /**
    With distinct candidate `_id`s (they come from one query), a candidate that yields no entry
    is not in the batch, so the upsert leaves its stored document as it was.
  */
  lemma FailedUntouched(s: MongoStore.Store, items: seq<Doc>, outs: seq<Option<Doc>>, i: nat)
    requires EntriesFor(items, outs) && DistinctIds(items)
    requires i < |items| && outs[i].None?
    ensures items[i].id !in MongoStore.IdSet(Somes(outs))
    ensures items[i].id in MongoStore.Upsert(s, Somes(outs)) <==> items[i].id in s
    ensures items[i].id in s ==> MongoStore.Upsert(s, Somes(outs))[items[i].id] == s[items[i].id]
  {
    var b := Somes(outs);
    forall k | 0 <= k < |b| ensures b[k].id != items[i].id {
      SomesMembers(outs, b[k]);
    }
    MongoStore.IdSetMembers(b, items[i].id);
    MongoStore.UpsertUntouched(s, b, items[i].id);
  }

  lemma {:induction false} SomesAppend<T>(xs: seq<Option<T>>, ys: seq<Option<T>>)
    ensures Somes(xs + ys) == Somes(xs) + Somes(ys)
    decreases |ys|
  {
    if ys == [] {
      assert xs + ys == xs;
    } else {
      var n := |ys| - 1;
      assert ys == ys[..n] + [ys[n]];
      assert xs + ys == (xs + ys[..n]) + [ys[n]];
      SomesSnoc(xs + ys[..n], ys[n]);
      SomesSnoc(ys[..n], ys[n]);
      SomesAppend(xs, ys[..n]);
    }
  }

  /**
    With distinct candidate `_id`s, a candidate that yields an entry ends up stored with
    every field its entry sets, at the entry's value, whatever was stored before.
  */
  lemma SucceededStored(s: MongoStore.Store, items: seq<Doc>, outs: seq<Option<Doc>>, i: nat, key: string)
    requires EntriesFor(items, outs) && DistinctIds(items)
    requires i < |items| && outs[i].Some? && key in outs[i].value.fields
    ensures items[i].id in MongoStore.Upsert(s, Somes(outs))
    ensures key in MongoStore.Upsert(s, Somes(outs))[items[i].id]
    ensures MongoStore.Upsert(s, Somes(outs))[items[i].id][key] == outs[i].value.fields[key]
  {
    var b := Somes(outs);
    var id := items[i].id;
    var front, back := outs[..i + 1], outs[i + 1..];
    assert outs == front + back;
    SomesAppend(front, back);
    SomesSnoc(outs[..i], outs[i]);
    assert front == outs[..i] + [outs[i]];
    var p := |Somes(front)| - 1;
    assert b[p] == outs[i].value;
    forall q | p < q < |b| ensures b[q].id != id {
      assert b[q] == Somes(back)[q - p - 1];
      SomesMembers(back, b[q]);
      var j :| 0 <= j < |back| && back[j] == Some(b[q]);
      assert outs[i + 1 + j] == back[j];
      assert items[i + 1 + j].id != id;
    }
    MongoStore.UpsertKeys(s, b);
    MongoStore.IdSetMembers(b, id);
    MongoStore.UpsertField(s, b, id, key);
    MongoStore.LastSetIs(b, id, key, p);
  }
}
