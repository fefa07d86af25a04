/**
 * The Tag table (app/house/models/tag.py) as a record type shared by the tag API and
 * the data migration that backfills updated_at.
 */
module TagModel {
  import opened Wrappers

  /**
   * One row of the Tag table. Times are whole seconds since the Unix epoch (UTC);
   * deleted_at is the soft-delete marker, None while the tag is live.
   */
  datatype Tag = Tag(
    id: nat,
    name: string,
    countUses: nat,
    createdAt: Option<int>,
    updatedAt: Option<int>,
    deletedAt: Option<int>,
    lastUsedAt: int)
}

/**
 * The read side of the tag API (app/house/api/tags.py): the queryset every action
 * starts from (live tags, optionally only those created in the last N hours), the
 * tolerant parse of the limit query parameter, the two ranked listings and the
 * choice of serializer.
 */
module Tags {
  import opened Wrappers
  import opened Text
  import opened Seqs
  import opened TagModel

  /** The largest magnitude of days a Python timedelta holds. */
  const MaxTimedeltaDays := 999999999
  /** datetime.min (0001-01-01) and datetime.max (9999-12-31 23:59:59), in epoch seconds. */
  const MinTime := -62135596800
  const MaxTime := 253402300799
  const SecondsPerHour := 3600
  /** The limit used when the query parameter is absent or not an integer. */
  const DefaultLimit := 10

  /** The exceptions the views raise and do not catch; each ends in a server error. */
  datatype ServerError =
    | DateOverflow   // OverflowError from timedelta(hours=...) or from now - timedelta
    | NegativeSlice  // the queryset refuses a slice with a negative bound

  predicate IsLive(t: Tag) {
    t.deletedAt.None?
  }

  /** created_at >= cutoff; a NULL created_at never satisfies the SQL comparison. */
  predicate CreatedSince(t: Tag, cutoff: int) {
    t.createdAt.Some? && t.createdAt.value >= cutoff
  }

  /**
   * timezone.now() - timedelta(hours=hours): None where Python raises OverflowError,
   * either because the timedelta exceeds its day range (days are hours // 24) or
   * because the difference leaves the datetime range.
   */
  function WindowStart(now: int, hours: int): Option<int> {
    if !(-MaxTimedeltaDays <= hours / 24 <= MaxTimedeltaDays) then None
    else
      var cutoff := now - hours * SecondsPerHour;
      if MinTime <= cutoff <= MaxTime then Some(cutoff) else None
  }

  /** The value of the novo query parameter read as hours, if it is a non-empty integer string. */
  function NovoHours(novo: Option<string>): Option<int> {
    if novo.Some? && novo.value != "" then PyInt(novo.value) else None
  }

  /**
   * TagViewSet.get_queryset: the tags whose deleted_at is NULL, and when novo is an
   * integer h only those created at or after now - h hours. A novo that is empty or not
   * an integer is ignored (the ValueError is caught); an overflow is not caught.
   */
  function GetQueryset(tags: seq<Tag>, novo: Option<string>, now: int): (r: Result<seq<Tag>, ServerError>)
    ensures r.Ok? ==> forall t | t in r.value :: t in tags && IsLive(t)
    ensures r.Err? <==> NovoHours(novo).Some? && WindowStart(now, NovoHours(novo).value).None?
    ensures NovoHours(novo).None? ==> r == Ok(Keep(tags, IsLive))
    ensures NovoHours(novo).Some? && WindowStart(now, NovoHours(novo).value).Some? ==>
      var cutoff := WindowStart(now, NovoHours(novo).value).value;
      && r.Ok?
      && (forall t | t in r.value :: CreatedSince(t, cutoff))
      && (forall t | t in tags && IsLive(t) && CreatedSince(t, cutoff) :: t in r.value)
  {
    var live := Keep(tags, IsLive);
    match NovoHours(novo)
    case None => Ok(live)
    case Some(h) =>
      match WindowStart(now, h)
      case None => Err(DateOverflow)
      case Some(cutoff) => Ok(Keep(live, t => CreatedSince(t, cutoff)))
  }

  /**
   * int(request.query_params.get('limit', 10)), with 10 in place of a ValueError: the
   * parameter's integer value when it has one, 10 otherwise.
   */
  function ParseLimit(limit: Option<string>): (r: int)
    ensures limit.None? ==> r == DefaultLimit
    ensures limit.Some? && PyInt(limit.value).None? ==> r == DefaultLimit
    ensures limit.Some? && PyInt(limit.value).Some? ==> r == PyInt(limit.value).value
  {
    match limit
    case None => DefaultLimit
    case Some(s) => PyInt(s).GetOr(DefaultLimit)
  }

  /**
   * Every integer of at most 4300 digits, written as Python writes it, is read back as
   * that limit; a longer one makes int() raise ValueError, so the limit is 10.
   */
  lemma ParseLimitReadsInteger(n: int)
    ensures ParseLimit(Some(IntToString(n))) == if |NatDigits(Abs(n))| <= MaxStrDigits then n else DefaultLimit
  {
    PyIntOfIntToString(n);
  }

  /** Digits that need no stripping. */
  lemma DigitGroupsUnspaced(d: string)
    requires IsDigitGroups(d)
    ensures PyStrip(d) == d && SignedBody(d) == d
  {
    assert IsDigit(d[0]) && IsDigit(d[|d| - 1]);
    assert !IsSpace(PyWhitespace, d[0]) && !IsSpace(PyWhitespace, d[|d| - 1]);
    TrimUnspaced(d, PyWhitespace);
  }

  /** A limit of more than 4300 digits is refused by int(), so 10 tags are listed. */
  lemma LongLimitIsDefault(d: string)
    requires IsDigitGroups(d) && |RemoveUnderscores(d)| > MaxStrDigits
    ensures ParseLimit(Some(d)) == DefaultLimit
  {
    DigitGroupsUnspaced(d);
  }

  /** int() refuses a novo of more than 4300 digits, so it gives no hours. */
  lemma LongNovoNoHours(d: string)
    requires IsDigitGroups(d) && |RemoveUnderscores(d)| > MaxStrDigits
    ensures NovoHours(Some(d)).None?
  {
    DigitGroupsUnspaced(d);
    assert NovoHours(Some(d)) == PyInt(d);
    assert PyInt(d).None?;
  }

  /** A novo of more than 4300 digits raises a ValueError that is caught: every live tag is listed. */
  lemma LongNovoIgnored(tags: seq<Tag>, d: string, now: int)
    requires IsDigitGroups(d) && |RemoveUnderscores(d)| > MaxStrDigits
    ensures GetQueryset(tags, Some(d), now) == Ok(Keep(tags, IsLive))
  {
    LongNovoNoHours(d);
  }

  function CountUses(t: Tag): int {
    t.countUses
  }

  function LastUsedAt(t: Tag): int {
    t.lastUsedAt
  }

  /**
   * What slicing a queryset ordered by key, largest first, to n rows gives: the
   * queryset's error; NegativeSlice for a negative n; otherwise min(n, |qs|) of its
   * tags, sorted, drawn from it, and none left out ranking above one kept.
   */
  ghost predicate IsRanking(qs: Result<seq<Tag>, ServerError>, n: int, key: Tag -> int, r: Result<seq<Tag>, ServerError>) {
    && (qs.Err? ==> r == Err(qs.error))
    && (qs.Ok? && n < 0 ==> r == Err(NegativeSlice))
    && (qs.Ok? && n >= 0 ==>
          && r.Ok?
          && |r.value| == (if n < |qs.value| then n else |qs.value|)
          && SortedDesc(r.value, key)
          && multiset(r.value) <= multiset(qs.value)
          && (forall x, y | x in multiset(qs.value) - multiset(r.value) && y in r.value :: key(x) <= key(y)))
  }

  /**
   * get_queryset().order_by('-key')[:limit]. Rows with equal keys come back in the
   * database's order, which the model fixes as the table's order.
   */
  function Ranked(tags: seq<Tag>, novo: Option<string>, limit: Option<string>, now: int, key: Tag -> int)
    : (r: Result<seq<Tag>, ServerError>)
    ensures IsRanking(GetQueryset(tags, novo, now), ParseLimit(limit), key, r)
    ensures r.Ok? <==> GetQueryset(tags, novo, now).Ok? && ParseLimit(limit) >= 0
    ensures r.Ok? ==> forall t | t in r.value :: t in tags && IsLive(t)
  {
    match GetQueryset(tags, novo, now)
    case Err(e) => Err(e)
    case Ok(qs) =>
      var n := ParseLimit(limit);
      if n < 0 then Err(NegativeSlice)
      else
        var top := TopN(qs, key, n);
        assert forall t | t in top :: t in multiset(qs);
        Ok(top)
  }

  /** TagViewSet.populares: the most used tags, countUses largest first. */
  function Populares(tags: seq<Tag>, novo: Option<string>, limit: Option<string>, now: int)
    : (r: Result<seq<Tag>, ServerError>)
    ensures IsRanking(GetQueryset(tags, novo, now), ParseLimit(limit), CountUses, r)
    ensures r.Ok? <==> GetQueryset(tags, novo, now).Ok? && ParseLimit(limit) >= 0
    ensures r.Ok? ==> forall t | t in r.value :: t in tags && IsLive(t)
  {
    Ranked(tags, novo, limit, now, CountUses)
  }

  /** TagViewSet.recentes_usadas: the most recently used tags, lastUsed_at latest first. */
  function RecentesUsadas(tags: seq<Tag>, novo: Option<string>, limit: Option<string>, now: int)
    : (r: Result<seq<Tag>, ServerError>)
    ensures IsRanking(GetQueryset(tags, novo, now), ParseLimit(limit), LastUsedAt, r)
    ensures r.Ok? <==> GetQueryset(tags, novo, now).Ok? && ParseLimit(limit) >= 0
    ensures r.Ok? ==> forall t | t in r.value :: t in tags && IsLive(t)
  {
    Ranked(tags, novo, limit, now, LastUsedAt)
  }

  /** An absent or non-numeric limit yields ten tags whenever ten live tags exist. */
  lemma DefaultLimitIsTen(tags: seq<Tag>, limit: Option<string>, now: int)
    requires limit.None? || PyInt(limit.value).None?
    requires |Keep(tags, IsLive)| >= DefaultLimit
    ensures Populares(tags, None, limit, now) == Ok(TopN(Keep(tags, IsLive), CountUses, DefaultLimit))
    ensures |Populares(tags, None, limit, now).value| == DefaultLimit
  {
  }

  datatype TagSerializerClass = TagSerializer | TagCreateSerializer

  /** TagViewSet.get_serializer_class: the create action alone uses TagCreateSerializer. */
  function GetSerializerClass(action: Option<string>): (r: TagSerializerClass)
    ensures r == TagCreateSerializer <==> action == Some("create")
  {
    if action == Some("create") then TagCreateSerializer else TagSerializer
  }
}
