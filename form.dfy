/** The add-bookmark form: its URL check and its submit handler.

    The URL parser (the WHATWG URL Standard's `new URL(...)`) is a parameter,
    `protocolOf`, giving the parsed URL's `protocol` or `None` when the
    constructor throws. The answers of `getUser` and of the insert are
    parameters too. */
module BookmarkForm {
  import opened Records
  import opened Text

  const TitleRequired := "Please enter a bookmark title"
  const UrlRequired := "Please enter a URL"
  const UrlInvalid := "Please enter a valid URL (must start with http:// or https://)"
  const LoginRequired := "You must be logged in to add bookmarks"
  const AddFailed := "Failed to add bookmark. Please try again."

  /** `validateUrl`, given what the parser made of the string: accepted
      exactly when parsing succeeded and the scheme is http or https. */
  predicate ValidateUrl(protocol: Option<string>)
    ensures ValidateUrl(protocol) ==> protocol.Some?
    ensures protocol.Some? ==> (ValidateUrl(protocol) <==> protocol.value in {"http:", "https:"})
  {
    match protocol
    case None => false
    case Some(p) => p == "http:" || p == "https:"
  }

  /** The row sent to the `bookmarks` table. */
  datatype NewRow = NewRow(userId: string, title: string, url: string)

  /** What awaiting the insert (with `.select()`) produces: an error, or the
      returned rows, which may be null. */
  datatype InsertReply = InsertFailed | Inserted(data: Option<seq<Bookmark>>)

  /** Whether `onBookmarkAdded` was called, and with what. `data[0]` of an
      empty array is `undefined`, written `None` here. */
  datatype Callback = NotCalled | CalledWith(arg: Option<Bookmark>)

  /** The form's component state. */
  datatype FormState = FormState(url: string, title: string, loading: bool, error: Option<string>, success: bool)

  /** What one submit did: the state afterwards, whether `getUser` was
      awaited, the row handed to the insert if one was attempted, and the
      callback. */
  datatype Submission = Submission(state: FormState, askedUser: bool, row: Option<NewRow>, callback: Callback)

  /** The reference outcome of `handleSubmit` from state `st`. Nothing is
      sent and `loading` is left alone unless the user was looked up, a row
      is inserted only after the lookup, the callback runs only after a row
      was sent, and the typed fields are kept unless the insert completed. */
  function SubmitOutcome(st: FormState, protocolOf: string -> Option<string>,
                         auth: AuthReply, reply: InsertReply): (r: Submission)
    ensures !r.askedUser ==> r.row.None? && r.callback.NotCalled? && r.state.loading == st.loading
    ensures r.row.Some? ==> r.askedUser
    ensures r.callback.CalledWith? ==> r.row.Some? && r.state.success
    ensures !r.state.success ==> r.state.url == st.url && r.state.title == st.title
  {
    var cleared := st.(error := None, success := false);
    if Trim(st.title) == [] then
      Submission(cleared.(error := Some(TitleRequired)), false, None, NotCalled)
    else if Trim(st.url) == [] then
      Submission(cleared.(error := Some(UrlRequired)), false, None, NotCalled)
    else if !ValidateUrl(protocolOf(st.url)) then
      Submission(cleared.(error := Some(UrlInvalid)), false, None, NotCalled)
    else
      var done := cleared.(loading := false);
      match auth
      case AuthThrew => Submission(done.(error := Some(AddFailed)), true, None, NotCalled)
      case NoSession => Submission(done.(error := Some(LoginRequired)), true, None, NotCalled)
      case Session(u) =>
        var row := NewRow(u.id, Trim(st.title), Trim(st.url));
        match reply
        case InsertFailed => Submission(done.(error := Some(AddFailed)), true, Some(row), NotCalled)
        case Inserted(data) =>
          var cb := match data
            case None => NotCalled
            case Some(rows) => CalledWith(if |rows| > 0 then Some(rows[0]) else None);
          Submission(done.(url := "", title := "", success := true), true, Some(row), cb)
  }

  /** Every submit starts by clearing `error` and `success`: no outcome shows
      a stale message, and only a completed insert shows success. */
  lemma SubmitClearsMessages(st: FormState, protocolOf: string -> Option<string>,
                             auth: AuthReply, reply: InsertReply)
    ensures var r := SubmitOutcome(st, protocolOf, auth, reply);
      && (r.state.success <==> auth.Session? && reply.Inserted? && r.row.Some?)
      && (r.state.error.None? <==> r.state.success)
  {
  }

  /** A title that is blank after trimming is reported first, whatever the
      URL is and whatever the parser and the backend would have said; nothing
      is sent. */
  lemma TitleCheckedFirst(st: FormState, url: string, p: string -> Option<string>, q: string -> Option<string>,
                          auth: AuthReply, auth': AuthReply, reply: InsertReply, reply': InsertReply)
    requires forall i :: 0 <= i < |st.title| ==> IsJsSpace(st.title[i])
    ensures var r := SubmitOutcome(st, p, auth, reply);
      && r.state == st.(error := Some(TitleRequired), success := false)
      && !r.askedUser && r.row.None? && r.callback.NotCalled?
      && SubmitOutcome(st.(url := url), q, auth', reply').state.error == Some(TitleRequired)
  {
  }

  /** With a title present, a blank URL is reported without consulting the
      parser. */
  lemma BlankUrlSkipsParser(st: FormState, p: string -> Option<string>, q: string -> Option<string>,
                            auth: AuthReply, reply: InsertReply)
    requires Trim(st.title) != []
    requires forall i :: 0 <= i < |st.url| ==> IsJsSpace(st.url[i])
    ensures var r := SubmitOutcome(st, p, auth, reply);
      && r == SubmitOutcome(st, q, auth, reply)
      && r.state.error == Some(UrlRequired)
      && !r.askedUser && r.row.None?
  {
  }

  /** The parser sees the URL as typed, untrimmed: the outcome depends on
      the parser only through its answer for `st.url`. */
  lemma ParserSeesUntrimmedUrl(st: FormState, p: string -> Option<string>, q: string -> Option<string>,
                               auth: AuthReply, reply: InsertReply)
    requires p(st.url) == q(st.url)
    ensures SubmitOutcome(st, p, auth, reply) == SubmitOutcome(st, q, auth, reply)
  {
  }

  /** Every validation failure returns before `loading` is touched and before
      the backend is asked anything, and keeps what the user typed. */
  lemma ValidationFailureSendsNothing(st: FormState, protocolOf: string -> Option<string>,
                                      auth: AuthReply, reply: InsertReply)
    requires Trim(st.title) == [] || Trim(st.url) == [] || !ValidateUrl(protocolOf(st.url))
    ensures var r := SubmitOutcome(st, protocolOf, auth, reply);
      && r.state == st.(error := r.state.error, success := false)
      && r.state.error.value in {TitleRequired, UrlRequired, UrlInvalid}
      && !r.askedUser && r.row.None? && r.callback.NotCalled?
  {
  }

  /** A URL that is present but rejected by `validateUrl` (it does not parse,
      or its scheme is neither http nor https) gives the scheme message. */
  lemma InvalidUrlRejected(st: FormState, protocolOf: string -> Option<string>,
                           auth: AuthReply, reply: InsertReply)
    requires Trim(st.title) != [] && Trim(st.url) != [] && !ValidateUrl(protocolOf(st.url))
    ensures SubmitOutcome(st, protocolOf, auth, reply).state.error == Some(UrlInvalid)
  {
  }

  /** Past validation, the backend is asked, `loading` ends false on every
      path, and the stored row holds the trimmed title and URL. */
  lemma AcceptedInputReachesBackend(st: FormState, protocolOf: string -> Option<string>,
                                    auth: AuthReply, reply: InsertReply)
    requires Trim(st.title) != [] && Trim(st.url) != [] && ValidateUrl(protocolOf(st.url))
    ensures var r := SubmitOutcome(st, protocolOf, auth, reply);
      && r.askedUser && !r.state.loading
      && (r.row.Some? <==> auth.Session?)
      && (r.row.Some? ==> r.row.value == NewRow(auth.user.id, Trim(st.title), Trim(st.url)))
      && (!auth.Session? ==> r.state.error == Some(if auth.NoSession? then LoginRequired else AddFailed))
  {
  }

  /** A completed insert clears both fields, shows success and calls
      `onBookmarkAdded` whenever the returned data is not null: with the
      first row, or with `undefined` when the array is empty. A failed insert shows the failure and keeps both fields. */
  lemma InsertOutcome(st: FormState, protocolOf: string -> Option<string>, u: User, reply: InsertReply)
    requires Trim(st.title) != [] && Trim(st.url) != [] && ValidateUrl(protocolOf(st.url))
    ensures var r := SubmitOutcome(st, protocolOf, Session(u), reply);
      && (reply.Inserted? ==>
            && r.state == FormState("", "", false, None, true)
            && (r.callback.CalledWith? <==> reply.data.Some?)
            && (r.callback.CalledWith? && |reply.data.value| > 0 ==> r.callback.arg == Some(reply.data.value[0]))
            && (r.callback.CalledWith? && |reply.data.value| == 0 ==> r.callback.arg == None))
      && (reply.InsertFailed? ==>
            && r.state == FormState(st.url, st.title, false, Some(AddFailed), false)
            && r.callback.NotCalled?)
  {
  }

  /** The component: the two input fields and the status it shows. */
  class Form {
    var url: string
    var title: string
    var loading: bool
    var error: Option<string>
    var success: bool

    function State(): FormState
      reads this
    {
      FormState(url, title, loading, error, success)
    }

    constructor ()
      ensures State() == FormState("", "", false, None, false)
    {
      url, title, loading, error, success := "", "", false, None, false;
    }

    /** The URL input's `onChange`. */
    method SetUrl(v: string)
      modifies this`url
      ensures url == v
    {
      url := v;
    }

    /** The title input's `onChange`. */
    method SetTitle(v: string)
      modifies this`title
      ensures title == v
    {
      title := v;
    }

    /** `handleSubmit`, step by step, with the backend's answers given. */
    method HandleSubmit(protocolOf: string -> Option<string>, auth: AuthReply, reply: InsertReply)
      returns (askedUser: bool, row: Option<NewRow>, callback: Callback)
      modifies this
      ensures var r := SubmitOutcome(old(State()), protocolOf, auth, reply);
        State() == r.state && askedUser == r.askedUser && row == r.row && callback == r.callback
    {
      askedUser, row, callback := false, None, NotCalled;
      error := None;
      success := false;

      if Trim(title) == [] {
        error := Some(TitleRequired);
        return;
      }
      if Trim(url) == [] {
        error := Some(UrlRequired);
        return;
      }
      if !ValidateUrl(protocolOf(url)) {
        error := Some(UrlInvalid);
        return;
      }

      loading := true;
      askedUser := true;
      match auth {
        case AuthThrew =>
          error := Some(AddFailed);
        case NoSession =>
          error := Some(LoginRequired);
        case Session(u) =>
          row := Some(NewRow(u.id, Trim(title), Trim(url)));
          match reply {
            case InsertFailed =>
              error := Some(AddFailed);
            case Inserted(data) =>
              url := "";
              title := "";
              success := true;
              if data.Some? {
                callback := CalledWith(if |data.value| > 0 then Some(data.value[0]) else None);
              }
          }
      }
      loading := false;
    }
  }
}
