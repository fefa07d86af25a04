/**
 * Data migration 0007: fill the updated_at column of the Tag table where it is NULL,
 * and its reverse, which clears the column. The table is an array of rows updated in
 * place. Migration 0006 declares updated_at with auto_now=True, and the historical
 * model the migration uses keeps that option, so save() stores the time of the save
 * over whatever value the loop assigned.
 */
module PopulateTagUpdatedAt {
  import opened Wrappers
  import opened TagModel

  /**
   * The value the forward step means to give a row (its docstring: created_at or the
   * current date): a row with a NULL updated_at gets its created_at, or the clock
   * reading `now` when created_at is NULL too; other rows are not touched.
   */
  function Backfill(t: Tag, now: int): (r: Tag)
    ensures r.updatedAt.Some?
    ensures t.updatedAt.Some? ==> r == t
    ensures t.updatedAt.None? && t.createdAt.Some? ==> r.updatedAt == t.createdAt
    ensures t.updatedAt.None? && t.createdAt.None? ==> r.updatedAt == Some(now)
    ensures r == t.(updatedAt := r.updatedAt)
  {
    if t.updatedAt.None? then t.(updatedAt := Some(t.createdAt.GetOr(now))) else t
  }

  /** save(update_fields=['updated_at']) on a row whose updated_at has auto_now: the save time is stored. */
  function AutoNowSave(t: Tag, now: int): (r: Tag)
    ensures r.updatedAt == Some(now) && r == t.(updatedAt := Some(now))
  {
    t.(updatedAt := Some(now))
  }

  /**
   * What the forward step stores in one row: a row with a NULL updated_at is assigned
   * Backfill's value and then saved, so it ends with the save time; other rows are not
   * touched.
   */
  function Stored(t: Tag, now: int): (r: Tag)
    ensures r.updatedAt.Some?
    ensures t.updatedAt.Some? ==> r == t
    ensures t.updatedAt.None? ==> r.updatedAt == Some(now)
    ensures r == t.(updatedAt := r.updatedAt)
  {
    if t.updatedAt.None? then AutoNowSave(Backfill(t, now), now) else t
  }

  /**
   * The stored value departs from the intended one: a row created at 10 with a NULL
   * updated_at, saved at 99, ends with 99 where Backfill gives 10.
   */
  lemma StoredIgnoresCreatedAt()
    ensures var t := Tag(1, "audio", 0, Some(10), None, None, 0);
      && Backfill(t, 99).updatedAt == Some(10)
      && Stored(t, 99).updatedAt == Some(99)
  {
  }

  /** The two agree exactly on rows whose created_at, if any, is the save time. */
  lemma StoredIsBackfillWhen(t: Tag, now: int)
    ensures Stored(t, now) == Backfill(t, now) <==> t.updatedAt.Some? || t.createdAt.None? || t.createdAt == Some(now)
  {
  }

  /** What the reverse step does to one row. */
  function Cleared(t: Tag): (r: Tag)
    ensures r.updatedAt.None? && r == t.(updatedAt := None)
  {
    t.(updatedAt := None)
  }

  /**
   * populate_updated_at: visits the rows with a NULL updated_at in order, assigns
   * created_at or timezone.now(), then saves; clock(k) is the time timezone.now()
   * returns while row k is handled, both at the assignment and inside save().
   */
  method PopulateUpdatedAt(tags: array<Tag>, clock: nat -> int)
    modifies tags
    ensures forall k | 0 <= k < tags.Length :: tags[k] == Stored(old(tags[k]), clock(k))
  {
    for i := 0 to tags.Length
      invariant forall k | 0 <= k < i :: tags[k] == Stored(old(tags[k]), clock(k))
      invariant forall k | i <= k < tags.Length :: tags[k] == old(tags[k])
    {
      if tags[i].updatedAt.None? {
        var stamp := if tags[i].createdAt.Some? then tags[i].createdAt.value else clock(i);
        tags[i] := tags[i].(updatedAt := Some(stamp));
        tags[i] := AutoNowSave(tags[i], clock(i));
      }
    }
  }

  /** reverse_populate: one bulk update setting updated_at to NULL on every row. */
  method ReversePopulate(tags: array<Tag>)
    modifies tags
    ensures forall k | 0 <= k < tags.Length :: tags[k] == Cleared(old(tags[k]))
  {
    forall k | 0 <= k < tags.Length {
      tags[k] := tags[k].(updatedAt := None);
    }
  }

  /**
   * After the forward step no row has a NULL updated_at, only that column changed, and
   * each filled row holds the time of its save.
   */
  lemma ForwardFillsEveryRow(before: seq<Tag>, after: seq<Tag>, clock: nat -> int)
    requires |after| == |before|
    requires forall k | 0 <= k < |before| :: after[k] == Stored(before[k], clock(k))
    ensures forall k | 0 <= k < |after| :: after[k].updatedAt.Some?
    ensures forall k | 0 <= k < |after| :: after[k] == before[k].(updatedAt := after[k].updatedAt)
    ensures forall k | 0 <= k < |after| && before[k].updatedAt.Some? :: after[k] == before[k]
    ensures forall k | 0 <= k < |after| && before[k].updatedAt.None? :: after[k].updatedAt == Some(clock(k))
  {
  }

  /** Reverse after forward leaves every row as reverse alone would: the backfill is forgotten. */
  lemma ReverseForgetsForward(t: Tag, now: int)
    ensures Cleared(Stored(t, now)) == Cleared(t)
  {
  }

  /**
   * Forward then reverse is not the identity: a row whose updated_at was already set
   * loses it.
   */
  lemma ForwardThenReverseLosesTimestamps()
    ensures exists t: Tag, now: int :: Cleared(Stored(t, now)) != t
  {
    var t := Tag(1, "audio", 3, Some(10), Some(20), None, 30);
    assert Cleared(Stored(t, 0)).updatedAt == None;
  }
}
