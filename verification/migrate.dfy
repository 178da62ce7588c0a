/** backend/migrate_orders.js: `updateMany({ isDelivered: { $exists: false } },
    { $set: { isDelivered: false } })` over the orders collection. Legacy
    documents may lack the flag; every other field is carried unchanged in
    `rest`. */
module MigrateOrders {
  import opened Wrappers

  datatype LegacyOrder<Rest> = LegacyOrder(rest: Rest, isDelivered: Option<bool>)

  /** The filter `{ isDelivered: { $exists: false } }`. */
  predicate Matches<R>(d: LegacyOrder<R>) {
    d.isDelivered.None?
  }

  /** The `$set` applied to one document. */
  function Backfill<R>(d: LegacyOrder<R>): (r: LegacyOrder<R>)
    ensures r.rest == d.rest
    ensures Matches(d) ==> r.isDelivered == Some(false)
    ensures !Matches(d) ==> r == d
  {
    if Matches(d) then d.(isDelivered := Some(false)) else d
  }

  /** The collection after the update. */
  function BackfillAll<R>(docs: seq<LegacyOrder<R>>): (r: seq<LegacyOrder<R>>)
    ensures |r| == |docs|
    ensures forall i :: 0 <= i < |docs| ==> r[i] == Backfill(docs[i])
  {
    seq(|docs|, i requires 0 <= i < |docs| => Backfill(docs[i]))
  }

  /** The number of documents the filter matches (`matchedCount`). */
  function CountMissing<R>(docs: seq<LegacyOrder<R>>): (n: nat)
    ensures n <= |docs|
  {
    if docs == [] then 0
    else CountMissing(docs[..|docs| - 1]) + (if Matches(docs[|docs| - 1]) then 1 else 0)
  }

  /** After the migration no document lacks the flag, so a second run matches
      and modifies nothing, and leaves the collection as it is. */
  lemma {:induction false} BackfillIdempotent<R>(docs: seq<LegacyOrder<R>>)
    ensures CountMissing(BackfillAll(docs)) == 0
    ensures BackfillAll(BackfillAll(docs)) == BackfillAll(docs)
    decreases |docs|
  {
    if docs != [] {
      var init := docs[..|docs| - 1];
      BackfillIdempotent(init);
      assert BackfillAll(docs)[..|docs| - 1] == BackfillAll(init);
    }
  }

  /** A collection in which every document has the flag is left unchanged. */
  lemma NothingToMigrate<R>(docs: seq<LegacyOrder<R>>)
    requires forall i :: 0 <= i < |docs| ==> !Matches(docs[i])
    ensures BackfillAll(docs) == docs
  {
  }

  /** The migration run in place over the collection. Every document lacking
      the flag ends with `isDelivered == false`, every other document is
      untouched, no other field changes; the matched count is the number of
      documents lacking the flag, and each of them is modified. */
  method Migrate<R>(docs: array<LegacyOrder<R>>) returns (matched: nat, modified: nat)
    modifies docs
    ensures docs[..] == BackfillAll(old(docs[..]))
    ensures matched == CountMissing(old(docs[..]))
    ensures modified == matched
  {
    matched, modified := 0, 0;
    for i := 0 to docs.Length
      invariant forall k :: 0 <= k < i ==> docs[k] == Backfill(old(docs[k]))
      invariant forall k :: i <= k < docs.Length ==> docs[k] == old(docs[k])
      invariant matched == CountMissing(old(docs[..])[..i])
      invariant modified == matched
    {
      assert old(docs[..])[..i + 1][..i] == old(docs[..])[..i];
      if Matches(docs[i]) {
        docs[i] := docs[i].(isDelivered := Some(false));
        matched, modified := matched + 1, modified + 1;
      }
    }
    assert old(docs[..])[..docs.Length] == old(docs[..]);
  }
}
