/** The bookmark list: the relative-date label, the host shown for each URL,
    the delete button's state, and the empty-state branch.

    What the runtime supplies is a parameter: the elapsed milliseconds
    `now.getTime() - date.getTime()` (`None` when the stored date does not
    parse, which makes it NaN), the locale rendering of the date, and the
    hostname of the parsed URL (`None` when `new URL(...)` throws). */
module BookmarkList {
  import opened Records
  import opened Text

  const DeleteFailed := "Failed to delete bookmark"

  /** `Math.floor(ms / 1000)`: the whole seconds elapsed, rounded towards
      minus infinity, so a date in the future gives a negative count. */
  function ElapsedSeconds(elapsedMs: int): (s: int)
    ensures s * 1000 <= elapsedMs < s * 1000 + 1000
  {
    elapsedMs / 1000
  }

  /** Which branch of `formatDate` applies. */
  datatype DateLabel = JustNow | MinutesAgo(minutes: nat) | HoursAgo(hours: nat) | DaysAgo(days: nat) | LocaleDate

  /** The if-chain of `formatDate` over the elapsed seconds. A NaN count fails
      every comparison and falls through to the locale date. Each count is
      the floor of the elapsed time in its unit, and stays below the next
      unit. */
  function DateBucket(seconds: Option<int>): (r: DateLabel)
    ensures r.JustNow? <==> seconds.Some? && seconds.value < 60
    ensures r.MinutesAgo? <==> seconds.Some? && 60 <= seconds.value < 3600
    ensures r.HoursAgo? <==> seconds.Some? && 3600 <= seconds.value < 86400
    ensures r.DaysAgo? <==> seconds.Some? && 86400 <= seconds.value < 604800
    ensures r.LocaleDate? <==> seconds.None? || seconds.value >= 604800
    ensures r.MinutesAgo? ==> 1 <= r.minutes <= 59 && r.minutes * 60 <= seconds.value < r.minutes * 60 + 60
    ensures r.HoursAgo? ==> 1 <= r.hours <= 23 && r.hours * 3600 <= seconds.value < r.hours * 3600 + 3600
    ensures r.DaysAgo? ==> 1 <= r.days <= 6 && r.days * 86400 <= seconds.value < r.days * 86400 + 86400
  {
    match seconds
    case None => LocaleDate
    case Some(s) =>
      if s < 60 then JustNow
      else if s < 3600 then MinutesAgo(s / 60)
      else if s < 86400 then HoursAgo(s / 3600)
      else if s < 604800 then DaysAgo(s / 86400)
      else LocaleDate
  }

  /** The text shown for a label: "just now", the locale date, or a count
      in decimal followed by the unit letter and " ago". */
  function LabelText(l: DateLabel, localeDate: string): (t: string)
    ensures l.JustNow? ==> t == "just now"
    ensures l.LocaleDate? ==> t == localeDate
    ensures !l.JustNow? && !l.LocaleDate? ==>
              && |t| > 5 && IsDigits(t[..|t| - 5])
              && t[|t| - 5..] == [if l.MinutesAgo? then 'm' else if l.HoursAgo? then 'h' else 'd'] + " ago"
  {
    match l
    case JustNow => "just now"
    case MinutesAgo(n) => Decimal(n) + "m ago"
    case HoursAgo(n) => Decimal(n) + "h ago"
    case DaysAgo(n) => Decimal(n) + "d ago"
    case LocaleDate => localeDate
  }

  /** `formatDate`, given the elapsed milliseconds and the locale date. An
      invalid date, or one a week or more ago, shows the locale date; less
      than a minute, future dates included, shows "just now"; in between the
      text is a count with a unit. */
  function FormatDate(elapsedMs: Option<int>, localeDate: string): (t: string)
    ensures elapsedMs.None? ==> t == localeDate
    ensures elapsedMs.Some? && elapsedMs.value >= 604800000 ==> t == localeDate
    ensures elapsedMs.Some? && elapsedMs.value < 60000 ==> t == "just now"
    ensures elapsedMs.Some? && 60000 <= elapsedMs.value < 604800000 ==>
              && |t| > 5 && IsDigits(t[..|t| - 5])
              && t[|t| - 5..] == (if elapsedMs.value < 3600000 then "m ago"
                                  else if elapsedMs.value < 86400000 then "h ago" else "d ago")
  {
    var seconds := match elapsedMs
      case None => None
      case Some(ms) => Some(ElapsedSeconds(ms));
    LabelText(DateBucket(seconds), localeDate)
  }

  /** Less than a minute, including a date in the future, reads "just now". */
  lemma RecentIsJustNow(ms: int, localeDate: string)
    requires ms < 60000
    ensures FormatDate(Some(ms), localeDate) == "just now"
  {
  }

  /** Between one minute and one hour, the text is the whole number of
      minutes, between 1 and 59, followed by "m ago". */
  lemma MinutesText(ms: int, localeDate: string)
    requires 60000 <= ms < 3600000
    ensures var n := ElapsedSeconds(ms) / 60;
      1 <= n <= 59 && n * 60000 <= ms < n * 60000 + 60000 &&
      FormatDate(Some(ms), localeDate) == Decimal(n) + "m ago"
  {
  }

  /** Between one hour and one day, the text is the whole number of hours,
      between 1 and 23, followed by "h ago". */
  lemma HoursText(ms: int, localeDate: string)
    requires 3600000 <= ms < 86400000
    ensures var n := ElapsedSeconds(ms) / 3600;
      1 <= n <= 23 && n * 3600000 <= ms < n * 3600000 + 3600000 &&
      FormatDate(Some(ms), localeDate) == Decimal(n) + "h ago"
  {
  }

  /** Between one day and one week, the text is the whole number of days,
      between 1 and 6, followed by "d ago". */
  lemma DaysText(ms: int, localeDate: string)
    requires 86400000 <= ms < 604800000
    ensures var n := ElapsedSeconds(ms) / 86400;
      1 <= n <= 6 && n * 86400000 <= ms < n * 86400000 + 86400000 &&
      FormatDate(Some(ms), localeDate) == Decimal(n) + "d ago"
  {
  }

  /** The number a relative label shows. */
  function Count(l: DateLabel): nat {
    match l
    case MinutesAgo(n) => n
    case HoursAgo(n) => n
    case DaysAgo(n) => n
    case _ => 0
  }

  /** The digits of a relative label are exactly its count. */
  lemma LabelTextShowsCount(l: DateLabel, localeDate: string)
    requires !l.JustNow? && !l.LocaleDate?
    ensures var t := LabelText(l, localeDate);
      IsDigits(t[..|t| - 5]) && DecimalValue(t[..|t| - 5]) == Count(l)
  {
    var t := LabelText(l, localeDate);
    assert t[..|t| - 5] == Decimal(Count(l));
    DecimalRoundTrip(Count(l));
  }

  /** The relative labels can be read back: two relative labels with the
      same text are the same label. */
  lemma LabelTextInjective(a: DateLabel, b: DateLabel, localeDate: string)
    requires !a.LocaleDate? && !b.LocaleDate?
    requires LabelText(a, localeDate) == LabelText(b, localeDate)
    ensures a == b
  {
    var t := LabelText(a, localeDate);
    assert a.JustNow? <==> t[0] == 'j' by {
      if !a.JustNow? {
        assert t[0] == Decimal(Count(a))[0];
      }
    }
    assert b.JustNow? <==> t[0] == 'j' by {
      if !b.JustNow? {
        assert t[0] == Decimal(Count(b))[0];
      }
    }
    if !a.JustNow? {
      var n := |t| - 5;
      assert t[..n] == Decimal(Count(a));
      assert LabelText(b, localeDate)[..n] == Decimal(Count(b));
      DecimalInjective(Count(a), Count(b));
      assert t[n] == LabelText(b, localeDate)[n];
    }
  }

  const WwwPrefix := "www."

  /** `formatUrl`: the input itself when it does not parse; otherwise the
      hostname with the first `"www."` removed, wherever it is. */
  function FormatUrl(url: string, hostname: Option<string>): (r: string)
    ensures hostname.None? ==> r == url
    ensures hostname.Some? && (forall j: nat :: !OccursAt(hostname.value, WwwPrefix, j)) ==> r == hostname.value
  {
    match hostname
    case None => url
    case Some(h) => ReplaceFirst(h, WwwPrefix, "")
  }

  /** With a `"www."` in the hostname, exactly its first occurrence goes. */
  lemma FormatUrlDropsFirstWww(url: string, h: string, i: nat)
    requires OccursAt(h, WwwPrefix, i)
    requires forall j: nat :: j < i ==> !OccursAt(h, WwwPrefix, j)
    ensures FormatUrl(url, Some(h)) == h[..i] + h[i + 4..]
    ensures |FormatUrl(url, Some(h))| == |h| - 4
  {
  }

  /** The usual case: a leading `"www."` is cut off. */
  lemma FormatUrlLeadingWww(url: string, h: string)
    requires |h| >= 4 && h[..4] == WwwPrefix
    ensures FormatUrl(url, Some(h)) == h[4..]
  {
  }

  /** Only the first occurrence goes, not every one. */
  lemma FormatUrlExample(url: string)
    ensures FormatUrl(url, Some("www.www.example.com")) == "www.example.com"
  {
  }

  /** What the list renders: the empty state, or the count, the error banner
      and, per row, whether its delete button is disabled. */
  datatype View = EmptyState | Listing(count: nat, error: Option<string>, busy: seq<bool>)

  function ListView(bookmarks: seq<Bookmark>, deletingId: Option<Id>, error: Option<string>): (v: View)
    ensures v.EmptyState? <==> |bookmarks| == 0
    ensures v.Listing? ==> v.count == |bookmarks| && v.error == error && |v.busy| == |bookmarks|
    ensures v.Listing? ==> forall i :: 0 <= i < |bookmarks| ==> (v.busy[i] <==> deletingId == Some(bookmarks[i].id))
  {
    if |bookmarks| == 0 then EmptyState
    else Listing(|bookmarks|, error, seq(|bookmarks|, i requires 0 <= i < |bookmarks| => deletingId == Some(bookmarks[i].id)))
  }

  /** The list's own state: which row is being deleted and the error shown. */
  class DeleteControl {
    var deletingId: Option<Id>
    var error: Option<string>

    constructor ()
      ensures deletingId == None && error == None
    {
      deletingId, error := None, None;
    }

    /** The synchronous start of `handleDelete`, before the request is
        awaited. */
    method StartDelete(id: Id)
      modifies this
      ensures deletingId == Some(id) && error == None
    {
      deletingId := Some(id);
      error := None;
    }

    /** The rest of `handleDelete` once the delete request for `id` has
        answered: on success the parent is told and `deletingId` is left
        as it is; on failure the error is shown, `deletingId` is cleared and
        the parent is not told. Returns the id passed to `onBookmarkDeleted`,
        if it was called. */
    method FinishDelete(id: Id, ok: bool) returns (deleted: Option<Id>)
      modifies this
      ensures ok ==> deleted == Some(id) && deletingId == old(deletingId) && error == old(error)
      ensures !ok ==> deleted == None && deletingId == None && error == Some(DeleteFailed)
    {
      if ok {
        deleted := Some(id);
      } else {
        deleted := None;
        error := Some(DeleteFailed);
        deletingId := None;
      }
    }
  }
}
