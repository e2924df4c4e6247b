/** The check-in screen's state: the attendee list, the status filter and
    the search query, and the handlers that change them. Each server round
    trip is represented by its reply, passed in as a parameter; a handler
    returns the inline message it would show, if any. */
module Checkin {
  import opened Seqs
  import opened Text
  import opened Attendees

  datatype Option<T> = None | Some(value: T)

  /** The reply to the registration POST. */
  datatype CreateReply =
    | Created(attendee: Attendee)               // 2xx, with the stored record
    | Refused(errors: Option<seq<string>>)      // any other status, with the body's `errors`
    | CreateThrew(message: string)              // the request or the JSON parse threw

  /** The request the check-in button sends. */
  datatype CheckinRequest = CheckinRequest(id: int, checkedIn: bool)

  /** The reply to the check-in PATCH. */
  datatype CheckinReply =
    | Updated(attendee: Attendee)               // 2xx, with the updated record
    | CheckinRefused                            // any other status
    | CheckinThrew(message: string)

  /** The reply to the DELETE. */
  datatype DeleteReply =
    | Answered(status: int)
    | DeleteThrew(message: string)

  /** The reply to the initial GET of the list. */
  datatype LoadReply =
    | Loaded(attendees: seq<Attendee>)
    | LoadThrew

  const RegisterFailed := "登録に失敗しました。"
  const CheckinFailed := "ステータスの更新に失敗しました。"
  const DeleteFailed := "削除に失敗しました。"
  const LoadFailed := "来場者リストの読み込みに失敗しました。サーバーを確認してください。"

  /** The message shown for a refused registration: the server's errors
      joined by spaces when it sent an `errors` list (an empty list is still
      a list, and gives ""), a fixed text otherwise. */
  function RefusalMessage(errors: Option<seq<string>>): (m: string)
    ensures errors.None? ==> m == RegisterFailed
    ensures errors.Some? && errors.value == [] ==> m == ""
    ensures errors.Some? && |errors.value| == 1 ==> m == errors.value[0]
    ensures errors.Some? && |errors.value| >= 2 ==>
      m == Join(errors.value[..|errors.value| - 1], " ") + " " + errors.value[|errors.value| - 1]
  {
    match errors
    case Some(list) =>
      if |list| >= 2 then
        assert list == list[..|list| - 1] + [list[|list| - 1]];
        JoinSnoc(list[..|list| - 1], " ", list[|list| - 1]);
        Join(list, " ")
      else Join(list, " ")
    case None => RegisterFailed
  }

  /** `res.ok`. */
  predicate IsOk(status: int) {
    200 <= status <= 299
  }

  /** `res.ok || res.status === 204`: the deletion is taken as done. */
  predicate DeleteAccepted(status: int) {
    IsOk(status) || status == 204
  }

  class Roster {
    var attendees: seq<Attendee>
    var statusFilter: string
    var searchQuery: string

    /** The query is stored lower-cased. */
    ghost predicate Valid()
      reads this`searchQuery
    {
      forall k :: 0 <= k < |searchQuery| ==> !IsUpperAscii(searchQuery[k])
    }

    /** The stored query is a fixed point of lower-casing, so the search
        compares lower-cased names and e-mails with a lower-cased query. */
    lemma QueryIsLowered()
      requires Valid()
      ensures Lower(searchQuery) == searchQuery
    {
      LowerOfLowered(searchQuery);
    }

    constructor ()
      ensures Valid()
      ensures attendees == [] && statusFilter == "all" && searchQuery == ""
    {
      attendees := [];
      statusFilter := "all";
      searchQuery := "";
    }

    /** `loadAttendees`: the list becomes what the server sent; on failure it
        stays and a message is shown. */
    method Load(reply: LoadReply) returns (message: Option<string>)
      requires Valid()
      modifies this`attendees
      ensures Valid()
      ensures reply.Loaded? ==> attendees == reply.attendees && message == None
      ensures reply.LoadThrew? ==> attendees == old(attendees) && message == Some(LoadFailed)
    {
      match reply
      case Loaded(list) =>
        attendees := list;
        message := None;
      case LoadThrew =>
        message := Some(LoadFailed);
    }

    /** A click on a status button. */
    method SetStatusFilter(status: string)
      requires Valid()
      modifies this`statusFilter
      ensures Valid()
      ensures statusFilter == status
    {
      statusFilter := status;
    }

    /** Typing in the search box: the query is stored lower-cased. */
    method SetSearchQuery(typed: string)
      requires Valid()
      modifies this`searchQuery
      ensures Valid()
      ensures searchQuery == Lower(typed)
    {
      searchQuery := Lower(typed);
    }

    /** `handleSubmit`: a form whose name is blank is refused before anything
        is sent; otherwise the payload is posted and, when the server stores
        it, the returned attendee goes to the front of the list. */
    method Submit(form: FormInput, reply: CreateReply) returns (sent: Option<Payload>, message: Option<string>)
      requires Valid()
      modifies this`attendees
      ensures Valid()
      ensures AllWhitespace(form.name) ==>
        sent == None && message == Some(NameRequired) && attendees == old(attendees)
      ensures !AllWhitespace(form.name) ==> sent == Some(BuildPayload(form).value)
      ensures !AllWhitespace(form.name) && reply.Created? ==>
        attendees == [reply.attendee] + old(attendees) && message == None
      ensures !AllWhitespace(form.name) && reply.Refused? ==>
        attendees == old(attendees) && message == Some(RefusalMessage(reply.errors))
      ensures !AllWhitespace(form.name) && reply.CreateThrew? ==>
        attendees == old(attendees) && message == Some(reply.message)
      ensures UniqueIds(old(attendees)) && (reply.Created? ==> reply.attendee.id !in Ids(old(attendees)))
        ==> UniqueIds(attendees)
    {
      var built := BuildPayload(form);
      if built.Err? {
        sent, message := None, Some(built.message);
        return;
      }
      sent := Some(built.value);
      match reply
      case Created(a) =>
        if UniqueIds(attendees) && a.id !in Ids(attendees) {
          AddKeepsUniqueIds(attendees, a);
        }
        attendees := [a] + attendees;
        message := None;
      case Refused(errors) =>
        message := Some(RefusalMessage(errors));
      case CreateThrew(m) =>
        message := Some(m);
    }

    /** `toggleCheckin`: the request asks for the new state of one attendee;
        the record the server returns replaces every record with its id. */
    method ToggleCheckin(id: int, checkedIn: bool, reply: CheckinReply)
      returns (request: CheckinRequest, message: Option<string>)
      requires Valid()
      modifies this`attendees
      ensures Valid()
      ensures request == CheckinRequest(id, checkedIn)
      ensures reply.Updated? ==>
        attendees == ReplaceById(old(attendees), reply.attendee) && message == None
      ensures reply.CheckinRefused? ==> attendees == old(attendees) && message == Some(CheckinFailed)
      ensures reply.CheckinThrew? ==> attendees == old(attendees) && message == Some(reply.message)
      ensures |attendees| == |old(attendees)| && Ids(attendees) == Ids(old(attendees))
    {
      request := CheckinRequest(id, checkedIn);
      match reply
      case Updated(u) =>
        ReplaceByIdKeepsIds(attendees, u);
        attendees := ReplaceById(attendees, u);
        message := None;
      case CheckinRefused =>
        message := Some(CheckinFailed);
      case CheckinThrew(m) =>
        message := Some(m);
    }

    /** `deleteAttendee`: nothing happens unless the user confirms; once the
        server accepts, every record with the id leaves the list. */
    method DeleteAttendee(id: int, confirmed: bool, reply: DeleteReply)
      returns (requested: bool, message: Option<string>)
      requires Valid()
      modifies this`attendees
      ensures Valid()
      ensures requested == confirmed
      ensures !confirmed ==> attendees == old(attendees) && message == None
      ensures confirmed && reply.Answered? && DeleteAccepted(reply.status) ==>
        attendees == RemoveById(old(attendees), id) && message == None
      ensures confirmed && reply.Answered? && !DeleteAccepted(reply.status) ==>
        attendees == old(attendees) && message == Some(DeleteFailed)
      ensures confirmed && reply.DeleteThrew? ==>
        attendees == old(attendees) && message == Some(reply.message)
      ensures UniqueIds(old(attendees)) ==> UniqueIds(attendees)
    {
      requested := confirmed;
      if !confirmed {
        message := None;
        return;
      }
      match reply
      case Answered(status) =>
        if DeleteAccepted(status) {
          if UniqueIds(attendees) {
            RemoveByIdKeepsUnique(attendees, id);
          }
          attendees := RemoveById(attendees, id);
          message := None;
        } else {
          message := Some(DeleteFailed);
        }
      case DeleteThrew(m) =>
        message := Some(m);
    }

    /** `filterAttendees`: the list on screen keeps the roster's order and
        holds exactly the attendees that pass the status and search tests. */
    function Visible(): (r: seq<Attendee>)
      reads this
      ensures IsSubsequence(r, attendees)
      ensures forall a :: a in r <==>
        a in attendees && PassesStatus(statusFilter, a) && PassesSearch(searchQuery, a)
      ensures forall a :: (multiset(r)[a] ==
        if PassesStatus(statusFilter, a) && PassesSearch(searchQuery, a) then multiset(attendees)[a] else 0)
    {
      FilterAttendeesIsSubsequence(attendees, statusFilter, searchQuery);
      FilterAttendeesMembers(attendees, statusFilter, searchQuery);
      FilterAttendeesCounts(attendees, statusFilter, searchQuery);
      FilterAttendees(attendees, statusFilter, searchQuery)
    }

    /** `renderStats`: the three counters. */
    function Counters(): (s: Stats)
      reads this
      ensures s.total == |attendees| && s.checked + s.waiting == s.total
      ensures s.checked == |FilterAttendees(attendees, "checked", "")|
      ensures s.waiting == |FilterAttendees(attendees, "waiting", "")|
    {
      StatsMatchViews(attendees);
      RenderStats(attendees)
    }
  }
}
