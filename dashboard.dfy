/** The dashboard page: the in-memory bookmark list and the three sources that
    change it (the bulk fetch, push events from the realtime channel, and the
    optimistic edits reported by the form and the list), plus the one-shot
    initialisation that wires them up.

    The list changes are written as pure functions on `seq<Bookmark>`, as the
    page writes them as pure `setBookmarks(prev => ...)` updaters; the
    component's state (`bookmarks`, `loading`, `user`, `channelRef`,
    `initRef`) is the `Dashboard` class. */
module DashboardPage {
  import opened Records
  import BookmarkForm
  import BookmarkList
  import Text

  /** A push event from the `postgres_changes` subscription. A DELETE
      carries only the old row's id. */
  datatype Change = Insert(row: Bookmark) | Update(row: Bookmark) | Delete(oldId: Id)

  /** An optimistic edit reported by a child component. */
  datatype LocalEdit = Added(row: Bookmark) | Removed(id: Id)

  /** The number of entries in `s` carrying `id`. The list is not kept
      unique by id, so this can exceed one. */
  function CountId(s: seq<Bookmark>, id: Id): nat {
    if s == [] then 0 else (if s[0].id == id then 1 else 0) + CountId(s[1..], id)
  }

  /** `[row, ...prev]`: the row goes to the head, whatever is already there. */
  function Prepend(prev: seq<Bookmark>, row: Bookmark): (r: seq<Bookmark>)
    ensures |r| == |prev| + 1 && r[0] == row && r[1..] == prev
  {
    [row] + prev
  }

  /** `prev.filter(b => b.id !== id)`. */
  function RemoveId(prev: seq<Bookmark>, id: Id): (r: seq<Bookmark>)
    ensures |r| <= |prev|
    ensures forall b :: b in r <==> b in prev && b.id != id
  {
    if prev == [] then []
    else if prev[0].id == id then RemoveId(prev[1..], id)
    else [prev[0]] + RemoveId(prev[1..], id)
  }

  /** `prev.map(b => b.id === row.id ? row : b)`. */
  function ReplaceById(prev: seq<Bookmark>, row: Bookmark): (r: seq<Bookmark>)
    ensures |r| == |prev|
    ensures forall i :: 0 <= i < |prev| ==> r[i] == (if prev[i].id == row.id then row else prev[i])
  {
    if prev == [] then []
    else [if prev[0].id == row.id then row else prev[0]] + ReplaceById(prev[1..], row)
  }

  /** The realtime payload handler: the list after one push event. */
  function ApplyChange(prev: seq<Bookmark>, ch: Change): (r: seq<Bookmark>)
    ensures ch.Insert? ==> |r| == |prev| + 1 && r[0] == ch.row
    ensures ch.Update? ==> |r| == |prev|
    ensures ch.Delete? ==> |r| <= |prev| && forall b :: b in r ==> b.id != ch.oldId
  {
    match ch
    case Insert(row) => Prepend(prev, row)
    case Delete(id) => RemoveId(prev, id)
    case Update(row) => ReplaceById(prev, row)
  }

  /** `handleBookmarkAdded` and `handleBookmarkDeleted`: the list after an
      optimistic edit. */
  function ApplyLocal(prev: seq<Bookmark>, edit: LocalEdit): (r: seq<Bookmark>)
    ensures edit.Added? ==> |r| == |prev| + 1 && r[0] == edit.row
    ensures edit.Removed? ==> |r| <= |prev| && forall b :: b in r ==> b.id != edit.id
  {
    match edit
    case Added(row) => Prepend(prev, row)
    case Removed(id) => RemoveId(prev, id)
  }

  // ---------------------------------------------------------------------------
  // Remote INSERT

  /** An INSERT adds exactly one entry with the row's id, whether or not
      the id is already present. */
  lemma InsertAddsOneCopy(prev: seq<Bookmark>, row: Bookmark, id: Id)
    ensures CountId(ApplyChange(prev, Insert(row)), id) == CountId(prev, id) + (if row.id == id then 1 else 0)
  {
  }

  // ---------------------------------------------------------------------------
  // Remote DELETE

  /** A DELETE removes every entry carrying the id and nothing else. */
  lemma {:induction false} RemoveIdLength(s: seq<Bookmark>, id: Id)
    ensures |RemoveId(s, id)| == |s| - CountId(s, id)
    ensures CountId(RemoveId(s, id), id) == 0
  {
    if s != [] {
      RemoveIdLength(s[1..], id);
    }
  }

  /** A DELETE of an id that is absent leaves the list as it was. */
  lemma {:induction false} RemoveAbsentId(s: seq<Bookmark>, id: Id)
    requires forall b :: b in s ==> b.id != id
    ensures RemoveId(s, id) == s
  {
    if s != [] {
      assert s[0] in s;
      assert forall b :: b in s[1..] ==> b in s;
      RemoveAbsentId(s[1..], id);
    }
  }

  /** The survivors keep their relative order: filtering distributes over
      concatenation, so each kept entry stays between the same neighbours. */
  lemma {:induction false} RemoveIdConcat(a: seq<Bookmark>, b: seq<Bookmark>, id: Id)
    ensures RemoveId(a + b, id) == RemoveId(a, id) + RemoveId(b, id)
  {
    if a != [] {
      assert (a + b)[1..] == a[1..] + b;
      RemoveIdConcat(a[1..], b, id);
    } else {
      assert a + b == b;
    }
  }

  /** Delivering the same DELETE twice has the effect of delivering it once. */
  lemma RemoveIdIdempotent(s: seq<Bookmark>, id: Id)
    ensures RemoveId(RemoveId(s, id), id) == RemoveId(s, id)
  {
  }

  /** DELETEs of two ids can be delivered in either order. */
  lemma {:induction false} RemoveIdCommutes(s: seq<Bookmark>, x: Id, y: Id)
    ensures RemoveId(RemoveId(s, x), y) == RemoveId(RemoveId(s, y), x)
  {
    if s != [] {
      RemoveIdCommutes(s[1..], x, y);
    }
  }

  // ---------------------------------------------------------------------------
  // Remote UPDATE

  /** An UPDATE keeps every position's id, so it never changes how many
      entries carry any id. */
  lemma {:induction false} ReplaceKeepsCounts(s: seq<Bookmark>, row: Bookmark, id: Id)
    ensures CountId(ReplaceById(s, row), id) == CountId(s, id)
  {
    if s != [] {
      var r := ReplaceById(s, row);
      assert r[1..] == ReplaceById(s[1..], row);
      ReplaceKeepsCounts(s[1..], row, id);
    }
  }

  /** An UPDATE for an id that is absent leaves the list as it was. */
  lemma ReplaceAbsentId(s: seq<Bookmark>, row: Bookmark)
    requires forall b :: b in s ==> b.id != row.id
    ensures ReplaceById(s, row) == s
  {
  }

  /** Delivering the same UPDATE twice has the effect of delivering it once. */
  lemma ReplaceIdempotent(s: seq<Bookmark>, row: Bookmark)
    ensures ReplaceById(ReplaceById(s, row), row) == ReplaceById(s, row)
  {
  }

  // ---------------------------------------------------------------------------
  // Optimistic edits against push events

  /** A local delete is the same list change as a remote DELETE. */
  lemma LocalDeleteIsRemoteDelete(s: seq<Bookmark>, id: Id)
    ensures ApplyLocal(s, Removed(id)) == ApplyChange(s, Delete(id))
  {
  }

  /** The list is not deduplicated: adding a row locally and then receiving
      its INSERT (or the other way round) leaves two entries with its id at
      the head. */
  lemma AddedTwice(s: seq<Bookmark>, b: Bookmark)
    ensures var t := ApplyChange(ApplyLocal(s, Added(b)), Insert(b));
      t == ApplyLocal(ApplyChange(s, Insert(b)), Added(b)) &&
      t[0] == b && t[1] == b && t[2..] == s &&
      CountId(t, b.id) == CountId(s, b.id) + 2
  {
  }

  /** One DELETE clears both copies of a row that was added twice. */
  lemma DeleteClearsBothCopies(s: seq<Bookmark>, b: Bookmark)
    ensures RemoveId(ApplyChange(ApplyLocal(s, Added(b)), Insert(b)), b.id) == RemoveId(s, b.id)
  {
  }

  // ---------------------------------------------------------------------------
  // Component state

  /** What awaiting the bookmarks query produces: an error, or `data`, which
      may be null. */
  datatype FetchReply = FetchFailed | Fetched(data: Option<seq<Bookmark>>)

  /** The realtime channel: its topic, its row filter, and whether it is
      still subscribed. */
  datatype Channel = Channel(topic: string, filter: string, active: bool)

  function ChannelFor(u: User): (c: Channel)
    ensures c.active
    ensures |c.topic| == 10 + |u.id| && |c.filter| == 11 + |u.id|
    ensures c.topic[..10] == "bookmarks-" && c.topic[10..] == u.id
    ensures c.filter[..11] == "user_id=eq." && c.filter[11..] == u.id
  {
    Channel("bookmarks-" + u.id, "user_id=eq." + u.id, true)
  }

  class Dashboard {
    var bookmarks: seq<Bookmark>
    var loading: bool
    var user: Option<User>
    /** `channelRef.current` */
    var channel: Option<Channel>
    /** `initRef.current` */
    var initStarted: bool
    /** Whether `router.replace('/')` was issued. */
    var redirectedHome: bool

    constructor ()
      ensures bookmarks == [] && loading && user == None && channel == None
      ensures !initStarted && !redirectedHome
    {
      bookmarks := [];
      loading := true;
      user := None;
      channel := None;
      initStarted := false;
      redirectedHome := false;
    }

    /** `fetchBookmarks` once its query has answered `reply`: the list is
        replaced wholesale on success (null data counts as empty), kept on
        failure, and `loading` ends false either way. */
    method FetchBookmarks(reply: FetchReply)
      modifies this`bookmarks, this`loading
      ensures !loading
      ensures reply.Fetched? ==> bookmarks == reply.data.GetOr([])
      ensures reply.FetchFailed? ==> bookmarks == old(bookmarks)
    {
      loading := true;
      match reply {
        case FetchFailed =>
        case Fetched(data) =>
          bookmarks := data.GetOr([]);
      }
      loading := false;
    }

    /** The mount effect and `initializeApp`, with `getUser` answering
        `auth` and the bookmarks query answering `fetch`. The body runs at
        most once. Without a user it only redirects: no fetch, no channel.
        With a user, the channel is opened after the fetch whether or not
        the fetch succeeded. */
    method Initialize(auth: AuthReply, fetch: FetchReply)
      modifies this
      ensures initStarted
      ensures old(initStarted) ==> unchanged(this)
      ensures !old(initStarted) && !auth.Session? ==>
        && bookmarks == old(bookmarks) && loading == old(loading)
        && user == old(user) && channel == old(channel)
        && redirectedHome == (old(redirectedHome) || auth.NoSession?)
      ensures !old(initStarted) && auth.Session? ==>
        && user == Some(auth.user)
        && !loading
        && bookmarks == (if fetch.Fetched? then fetch.data.GetOr([]) else old(bookmarks))
        && channel == Some(ChannelFor(auth.user))
        && redirectedHome == old(redirectedHome)
    {
      if initStarted {
        return;
      }
      initStarted := true;
      match auth {
        case AuthThrew =>
        case NoSession =>
          redirectedHome := true;
        case Session(u) =>
          user := Some(u);
          FetchBookmarks(fetch);
          channel := Some(ChannelFor(u));
      }
    }

    /** The subscription's payload handler, for one delivered event. Events
        arrive only while the channel is subscribed. */
    method OnChange(ch: Change)
      requires channel.Some? && channel.value.active
      modifies this`bookmarks
      ensures bookmarks == ApplyChange(old(bookmarks), ch)
    {
      match ch {
        case Insert(row) =>
          bookmarks := [row] + bookmarks;
        case Delete(id) =>
          bookmarks := RemoveId(bookmarks, id);
        case Update(row) =>
          bookmarks := ReplaceById(bookmarks, row);
      }
    }

    /** `handleBookmarkAdded`: the new row goes to the head at once. */
    method HandleBookmarkAdded(row: Bookmark)
      modifies this`bookmarks
      ensures bookmarks == ApplyLocal(old(bookmarks), Added(row))
    {
      bookmarks := [row] + bookmarks;
    }

    /** `handleBookmarkDeleted`: the row leaves the list at once. */
    method HandleBookmarkDeleted(id: Id)
      modifies this`bookmarks
      ensures bookmarks == ApplyLocal(old(bookmarks), Removed(id))
    {
      bookmarks := RemoveId(bookmarks, id);
    }

    /** The form, rendered with `onBookmarkAdded={handleBookmarkAdded}`,
        submitting once. A row reported back by the form goes to the head
        of the list. */
    method SubmitForm(form: BookmarkForm.Form, protocolOf: string -> Option<string>,
                      auth: AuthReply, reply: BookmarkForm.InsertReply)
      modifies this`bookmarks, form
      ensures var r := BookmarkForm.SubmitOutcome(old(form.State()), protocolOf, auth, reply);
        && form.State() == r.state
        && bookmarks == (if r.callback.CalledWith? && r.callback.arg.Some?
                         then ApplyLocal(old(bookmarks), Added(r.callback.arg.value))
                         else old(bookmarks))
    {
      var _, _, callback := form.HandleSubmit(protocolOf, auth, reply);
      if callback.CalledWith? && callback.arg.Some? {
        HandleBookmarkAdded(callback.arg.value);
      }
    }

    /** The list, rendered with `onBookmarkDeleted={handleBookmarkDeleted}`,
        deleting the row `id` when the backend answers `ok`. */
    method DeleteFromList(list: BookmarkList.DeleteControl, id: Id, ok: bool)
      modifies this`bookmarks, list
      ensures list.deletingId == (if ok then Some(id) else None)
      ensures list.error == (if ok then None else Some(BookmarkList.DeleteFailed))
      ensures bookmarks == (if ok then ApplyLocal(old(bookmarks), Removed(id)) else old(bookmarks))
    {
      list.StartDelete(id);
      var deleted := list.FinishDelete(id, ok);
      if deleted.Some? {
        HandleBookmarkDeleted(deleted.value);
      }
    }

    /** The effect's cleanup, `channelRef.current?.unsubscribe()`: harmless
        when no channel was ever opened, and when repeated. */
    method Teardown()
      modifies this`channel
      ensures old(channel).None? ==> channel == None
      ensures old(channel).Some? ==> channel == Some(old(channel).value.(active := false))
    {
      if channel.Some? {
        channel := Some(channel.value.(active := false));
      }
    }
  }

  /** A session in which the user adds a row through the form and the
      server then pushes the INSERT for that row: the dashboard ends up
      listing it twice. */
  method EchoedAddScenario(u: User, b: Bookmark) returns (copies: nat, shown: seq<Bookmark>)
    ensures copies == 2
    ensures shown == [b, b]
  {
    var d := new Dashboard();
    d.Initialize(Session(u), Fetched(Some([])));
    var f := new BookmarkForm.Form();
    f.SetTitle("Docs");
    f.SetUrl("https://dafny.org");
    assert !Text.IsJsSpace(f.title[0]) && !Text.IsJsSpace(f.url[0]);
    assert Text.Trim(f.title) != [] && Text.Trim(f.url) != [];
    var protocolOf := (s: string) => Some("https:");
    var reply := BookmarkForm.Inserted(Some([b]));
    assert BookmarkForm.ValidateUrl(protocolOf(f.url));
    BookmarkForm.InsertOutcome(f.State(), protocolOf, u, reply);
    d.SubmitForm(f, protocolOf, Session(u), reply);
    assert d.bookmarks == [b];
    d.OnChange(Insert(b));
    AddedTwice([], b);
    copies := CountId(d.bookmarks, b.id);
    shown := d.bookmarks;
  }
}
