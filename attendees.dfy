/** The attendee records of the check-in screen and the pure computations the
    screen makes over them: the registration payload, the filtered view, the
    counters, the list updates applied after a server reply, and the two
    display helpers for contact details and ticket types. */
module Attendees {
  import opened Seqs
  import opened Text
  import opened Numbers

  /** One attendee as the server sends it. Missing text fields are "". */
  datatype Attendee = Attendee(
    id: int,
    name: string,
    email: string,
    phone: string,
    ticketType: string,
    guests: int,
    note: string,
    checkedIn: bool,
    createdAt: string,
    checkedInAt: string)

  /** The raw values of the registration form's fields. */
  datatype FormInput = FormInput(
    name: string,
    email: string,
    phone: string,
    ticketType: string,
    guests: string,
    note: string)

  /** The body posted to the server when registering an attendee. */
  datatype Payload = Payload(
    name: string,
    email: string,
    phone: string,
    ticketType: string,
    guests: int,
    note: string)

  datatype Result<T> = Ok(value: T) | Err(message: string)

  const NameRequired := "氏名は必須です。"

  // ---------------------------------------------------------------------
  // Registration form

  /** Builds the payload from the form: text fields trimmed (the ticket type
      is taken as selected), the guest count parsed with a default of 1, and
      the payload refused when the trimmed name is empty. */
  function BuildPayload(form: FormInput): (r: Result<Payload>)
    ensures r.Err? <==> AllWhitespace(form.name)
    ensures r.Err? ==> r.message == NameRequired
    ensures r.Ok? ==> r.value == Payload(Trim(form.name), Trim(form.email), Trim(form.phone),
                                         form.ticketType, Guests(form.guests), Trim(form.note))
  {
    TrimEmptyIff(form.name);
    var payload := Payload(Trim(form.name), Trim(form.email), Trim(form.phone),
                           form.ticketType, Guests(form.guests), Trim(form.note));
    if payload.name == [] then Err(NameRequired) else Ok(payload)
  }

  /** An accepted payload carries a non-empty name without whitespace at
      either end, and a guest count that is not 0. */
  lemma BuildPayloadName(form: FormInput, payload: Payload)
    requires BuildPayload(form) == Ok(payload)
    ensures payload.name != [] && !IsWhitespace(payload.name[0])
    ensures !IsWhitespace(payload.name[|payload.name| - 1])
    ensures payload.guests != 0
  {
    TrimEmptyIff(form.name);
    TrimEnds(form.name);
  }

  /** Whitespace typed around the name does not change what is sent, and a
      name without padding is sent as it is. */
  lemma BuildPayloadIgnoresPadding(form: FormInput, p: string, q: string)
    requires AllWhitespace(p) && AllWhitespace(q)
    requires form.name != [] && !IsWhitespace(form.name[0]) && !IsWhitespace(form.name[|form.name| - 1])
    ensures BuildPayload(form.(name := p + form.name + q)) == BuildPayload(form)
    ensures BuildPayload(form).Ok? && BuildPayload(form).value.name == form.name
  {
    var padded := form.(name := p + form.name + q);
    TrimPadded(p, form.name, q);
    TrimUnpadded(form.name);
    assert Trim(padded.name) == Trim(form.name);
  }

  // ---------------------------------------------------------------------
  // Filtered view

  /** The status test: "checked" keeps checked-in attendees, "waiting" keeps
      the others, and any other status keeps everyone. */
  predicate PassesStatus(status: string, a: Attendee) {
    if status == "checked" then a.checkedIn
    else if status == "waiting" then !a.checkedIn
    else true
  }

  /** The search test: an empty query keeps everyone; otherwise the
      lower-cased name or e-mail must include the query. */
  predicate PassesSearch(query: string, a: Attendee) {
    if query == [] then true
    else Contains(Lower(a.name), query) || Contains(Lower(a.email), query)
  }

  function StatusTest(status: string): (t: Attendee -> bool) {
    a => PassesStatus(status, a)
  }

  function SearchTest(query: string): (t: Attendee -> bool) {
    a => PassesSearch(query, a)
  }

  /** The list shown on screen: the roster filtered by status, then by search.
      Everything shown passes both tests. */
  function FilterAttendees(list: seq<Attendee>, status: string, query: string): (r: seq<Attendee>)
    ensures |r| <= |list|
    ensures forall i :: 0 <= i < |r| ==> PassesStatus(status, r[i]) && PassesSearch(query, r[i])
  {
    var byStatus := Filter(list, StatusTest(status));
    var r := Filter(byStatus, SearchTest(query));
    forall i | 0 <= i < |r| ensures PassesStatus(status, r[i]) {
      FilterMember(byStatus, SearchTest(query), r[i]);
      FilterMember(list, StatusTest(status), r[i]);
    }
    r
  }

  /** The view keeps the roster's order. */
  lemma FilterAttendeesIsSubsequence(list: seq<Attendee>, status: string, query: string)
    ensures IsSubsequence(FilterAttendees(list, status, query), list)
  {
    var byStatus := Filter(list, StatusTest(status));
    FilterIsSubsequence(list, StatusTest(status));
    FilterIsSubsequence(byStatus, SearchTest(query));
    SubsequenceTransitive(FilterAttendees(list, status, query), byStatus, list);
  }

  /** The view holds every attendee that passes both tests as often as the
      roster does, and nobody else. */
  lemma FilterAttendeesCount(list: seq<Attendee>, status: string, query: string, a: Attendee)
    ensures multiset(FilterAttendees(list, status, query))[a]
         == if PassesStatus(status, a) && PassesSearch(query, a) then multiset(list)[a] else 0
  {
    FilterMultiset(list, StatusTest(status), a);
    FilterMultiset(Filter(list, StatusTest(status)), SearchTest(query), a);
  }

  lemma FilterAttendeesCounts(list: seq<Attendee>, status: string, query: string)
    ensures forall a :: (multiset(FilterAttendees(list, status, query))[a]
         == if PassesStatus(status, a) && PassesSearch(query, a) then multiset(list)[a] else 0)
  {
    forall a {
      FilterAttendeesCount(list, status, query, a);
    }
  }

  /** An attendee is shown if and only if it is on the roster and passes both tests. */
  lemma FilterAttendeesMember(list: seq<Attendee>, status: string, query: string, a: Attendee)
    ensures a in FilterAttendees(list, status, query)
        <==> a in list && PassesStatus(status, a) && PassesSearch(query, a)
  {
    FilterAttendeesCount(list, status, query, a);
  }

  lemma FilterAttendeesMembers(list: seq<Attendee>, status: string, query: string)
    ensures forall a :: (a in FilterAttendees(list, status, query)
                         <==> a in list && PassesStatus(status, a) && PassesSearch(query, a))
  {
    forall a {
      FilterAttendeesMember(list, status, query, a);
    }
  }

  /** With status "checked" only checked-in attendees are shown, with
      "waiting" only those not checked in. */
  lemma FilterAttendeesByStatus(list: seq<Attendee>, status: string, query: string)
    ensures status == "checked" ==>
      forall a :: a in FilterAttendees(list, status, query) ==> a.checkedIn
    ensures status == "waiting" ==>
      forall a :: a in FilterAttendees(list, status, query) ==> !a.checkedIn
  {
    forall a | a in FilterAttendees(list, status, query)
      ensures PassesStatus(status, a)
    {
      FilterAttendeesMember(list, status, query, a);
    }
  }

  /** Without a status restriction and without a query the whole roster is shown. */
  lemma FilterAttendeesShowsAll(list: seq<Attendee>, status: string)
    requires status != "checked" && status != "waiting"
    ensures FilterAttendees(list, status, "") == list
  {
    FilterKeepsAll(list, StatusTest(status));
    FilterKeepsAll(list, SearchTest(""));
  }

  /** The search ignores ASCII case: when text `t` occurs in an attendee's
      name or e-mail, a query typed as `t` in any other ASCII case keeps
      that attendee. */
  lemma SearchIgnoresCase(a: Attendee, t: string, typed: string)
    requires Lower(t) == Lower(typed)
    requires Contains(a.name, t) || Contains(a.email, t)
    ensures PassesSearch(Lower(typed), a)
  {
    if Contains(a.name, t) {
      ContainsLower(a.name, t);
    } else {
      ContainsLower(a.email, t);
    }
  }

  // ---------------------------------------------------------------------
  // Counters

  datatype Stats = Stats(total: int, checked: int, waiting: int)

  function CheckedTest(): (t: Attendee -> bool) {
    (a: Attendee) => a.checkedIn
  }

  /** The counters: all attendees, those checked in, and the rest. */
  function RenderStats(list: seq<Attendee>): (s: Stats)
    ensures s.total == |list|
    ensures 0 <= s.checked <= s.total && 0 <= s.waiting <= s.total
    ensures s.checked + s.waiting == s.total
  {
    var total := |list|;
    var checked := |Filter(list, CheckedTest())|;
    Stats(total, checked, total - checked)
  }

  /** The counters agree with the sizes of the "checked" and "waiting" views. */
  lemma StatsMatchViews(list: seq<Attendee>)
    ensures RenderStats(list).checked == |FilterAttendees(list, "checked", "")|
    ensures RenderStats(list).waiting == |FilterAttendees(list, "waiting", "")|
  {
    FilterKeepsAll(Filter(list, StatusTest("checked")), SearchTest(""));
    FilterKeepsAll(Filter(list, StatusTest("waiting")), SearchTest(""));
    FilterSameTest(list, StatusTest("checked"), CheckedTest());
    FilterComplement(list, CheckedTest(), StatusTest("waiting"));
  }

  // ---------------------------------------------------------------------
  // List updates applied after a server reply

  function Ids(list: seq<Attendee>): (ids: seq<int>)
    ensures |ids| == |list|
    ensures forall i :: 0 <= i < |list| ==> ids[i] == list[i].id
  {
    seq(|list|, i requires 0 <= i < |list| => list[i].id)
  }

  /** No two records share an id, as the server hands them out. */
  predicate UniqueIds(list: seq<Attendee>) {
    forall i, j :: 0 <= i < j < |list| ==> list[i].id != list[j].id
  }

  /** `attendees.map(item => item.id === updated.id ? updated : item)`:
      exactly the records with the updated id are replaced, the rest stay,
      and length and order are kept. */
  function ReplaceById(list: seq<Attendee>, updated: Attendee): (r: seq<Attendee>)
    ensures |r| == |list|
    ensures forall i :: 0 <= i < |list| && list[i].id == updated.id ==> r[i] == updated
    ensures forall i :: 0 <= i < |list| && list[i].id != updated.id ==> r[i] == list[i]
  {
    if list == [] then []
    else [if list[0].id == updated.id then updated else list[0]] + ReplaceById(list[1..], updated)
  }

  /** Replacing keeps every id where it was, so ids stay unique. */
  lemma ReplaceByIdKeepsIds(list: seq<Attendee>, updated: Attendee)
    ensures Ids(ReplaceById(list, updated)) == Ids(list)
    ensures UniqueIds(list) ==> UniqueIds(ReplaceById(list, updated))
  {
  }

  /** Applying the same reply twice is the same as applying it once. */
  lemma ReplaceByIdIdempotent(list: seq<Attendee>, updated: Attendee)
    ensures ReplaceById(ReplaceById(list, updated), updated) == ReplaceById(list, updated)
  {
  }

  /** With unique ids, a reply about the attendee at position `i` updates that
      position only, and replacing it with the old record restores the list. */
  lemma ReplaceByIdAt(list: seq<Attendee>, i: int, updated: Attendee)
    requires UniqueIds(list) && 0 <= i < |list| && list[i].id == updated.id
    ensures ReplaceById(list, updated) == list[i := updated]
    ensures ReplaceById(ReplaceById(list, updated), list[i]) == list
  {
  }

  /** A check-in reply moves one attendee between the counters: the total is
      kept and the checked-in count changes by what the reply changed. */
  lemma ReplaceByIdStats(list: seq<Attendee>, i: int, updated: Attendee)
    requires UniqueIds(list) && 0 <= i < |list| && list[i].id == updated.id
    ensures RenderStats(ReplaceById(list, updated)).total == RenderStats(list).total
    ensures RenderStats(ReplaceById(list, updated)).checked + (if list[i].checkedIn then 1 else 0)
         == RenderStats(list).checked + (if updated.checkedIn then 1 else 0)
  {
    ReplaceByIdAt(list, i, updated);
    FilterCountUpdate(list, CheckedTest(), i, updated);
  }

  function IdIsNot(id: int): (t: Attendee -> bool) {
    (a: Attendee) => a.id != id
  }

  /** `attendees.filter(item => item.id !== id)`: the records with that id are
      gone, every other record is kept as often as before and in its order. */
  function RemoveById(list: seq<Attendee>, id: int): (r: seq<Attendee>)
    ensures IsSubsequence(r, list)
    ensures id !in Ids(r)
    ensures forall a: Attendee :: a.id != id ==> multiset(r)[a] == multiset(list)[a]
  {
    var r := Filter(list, IdIsNot(id));
    FilterIsSubsequence(list, IdIsNot(id));
    FilterMultisetAll(list, IdIsNot(id));
    r
  }

  lemma FilterMultisetAll(list: seq<Attendee>, p: Attendee -> bool)
    ensures forall a :: multiset(Filter(list, p))[a] == if p(a) then multiset(list)[a] else 0
  {
    forall a {
      FilterMultiset(list, p, a);
    }
  }

  /** Deleting an id nobody has changes nothing. */
  lemma RemoveByIdAbsent(list: seq<Attendee>, id: int)
    requires id !in Ids(list)
    ensures RemoveById(list, id) == list
  {
    FilterKeepsAll(list, IdIsNot(id));
  }

  /** Deleting the attendee just added, under a fresh id, gives back the
      roster as it was before the registration. */
  lemma RemoveByIdUndoesAdd(list: seq<Attendee>, a: Attendee)
    requires a.id !in Ids(list)
    ensures RemoveById([a] + list, a.id) == list
  {
    FilterCons(a, list, IdIsNot(a.id));
    RemoveByIdAbsent(list, a.id);
  }

  /** A registration under a fresh id keeps the ids unique. */
  lemma AddKeepsUniqueIds(list: seq<Attendee>, a: Attendee)
    requires UniqueIds(list) && a.id !in Ids(list)
    ensures UniqueIds([a] + list)
  {
    forall i, j | 0 <= i < j < |[a] + list|
      ensures ([a] + list)[i].id != ([a] + list)[j].id
    {
      if i == 0 {
        assert ([a] + list)[j] == list[j - 1];
        assert Ids(list)[j - 1] == list[j - 1].id;
      }
    }
  }

  /** Deleting keeps the ids unique. */
  lemma RemoveByIdKeepsUnique(list: seq<Attendee>, id: int)
    requires UniqueIds(list)
    ensures UniqueIds(RemoveById(list, id))
  {
    FilterKeepsDistinct(list, IdIsNot(id), (a: Attendee) => a.id);
  }

  /** With unique ids, deleting an id that is on the roster removes exactly
      one attendee, and deleting any other id removes none. */
  lemma {:induction false} RemoveByIdCount(list: seq<Attendee>, id: int)
    requires UniqueIds(list)
    ensures |RemoveById(list, id)| == if id in Ids(list) then |list| - 1 else |list|
  {
    if list != [] {
      var tail := list[1..];
      assert list == [list[0]] + tail;
      assert Ids(list) == [list[0].id] + Ids(tail);
      FilterCons(list[0], tail, IdIsNot(id));
      if list[0].id == id {
        RemoveByIdAbsent(tail, id);
      } else {
        RemoveByIdCount(tail, id);
      }
    }
  }

  /** A registration raises the total by one and the count its status falls in by one. */
  lemma AddStats(list: seq<Attendee>, a: Attendee)
    ensures RenderStats([a] + list).total == RenderStats(list).total + 1
    ensures RenderStats([a] + list).checked == RenderStats(list).checked + (if a.checkedIn then 1 else 0)
    ensures RenderStats([a] + list).waiting == RenderStats(list).waiting + (if a.checkedIn then 0 else 1)
  {
    FilterCons(a, list, CheckedTest());
  }

  // ---------------------------------------------------------------------
  // Display helpers

  const NoContact := "連絡先未登録"
  const EmailMark := "\U{1F4E7} "
  const PhoneMark := "\U{260E}\U{FE0F} "

  function NonEmpty(): (t: string -> bool) {
    s => s != ""
  }

  /** The contact line of a card: the marked e-mail and phone that are
      present, joined by " / ", or a placeholder when neither is. */
  function ComposeContact(a: Attendee): (r: string)
    ensures r == NoContact <==> a.email == "" && a.phone == ""
    ensures a.email != "" && a.phone != "" ==> r == EmailMark + a.email + " / " + PhoneMark + a.phone
    ensures a.email != "" && a.phone == "" ==> r == EmailMark + a.email
    ensures a.email == "" && a.phone != "" ==> r == PhoneMark + a.phone
  {
    var email := if a.email != "" then EmailMark + a.email else "";
    var phone := if a.phone != "" then PhoneMark + a.phone else "";
    var kept := Filter([email, phone], NonEmpty());
    assert kept == (if email != "" then [email] else []) + (if phone != "" then [phone] else []) by {
      FilterCons(email, [phone], NonEmpty());
      FilterCons(phone, [], NonEmpty());
    }
    var joined := Join(kept, " / ");
    assert |kept| == 2 ==> joined == email + " / " + phone;
    assert joined != "" ==> joined[0] == EmailMark[0] || joined[0] == PhoneMark[0];
    if joined != "" then joined else NoContact
  }

  /** The labels of the known ticket types. */
  const TicketLabels: map<string, string> :=
    map["standard" := "一般", "vip" := "VIP", "vendor" := "出店者", "staff" := "スタッフ"]

  const DefaultLabel := "一般"

  /** The label of a ticket type: the known types have their own label, and
      every other value falls back to the standard one. */
  function TicketLabel(ticketType: string): (r: string)
    ensures ticketType in TicketLabels ==> r == TicketLabels[ticketType]
    ensures ticketType !in TicketLabels ==> r == DefaultLabel
    ensures r in TicketLabels.Values
  {
    assert TicketLabels["standard"] == DefaultLabel;
    if ticketType in TicketLabels then TicketLabels[ticketType]
    else DefaultLabel
  }

  /** The property names every object literal inherits from Object.prototype. */
  const InheritedKeys: set<string> := {
    "constructor", "hasOwnProperty", "isPrototypeOf", "propertyIsEnumerable",
    "toLocaleString", "toString", "valueOf", "__proto__",
    "__defineGetter__", "__defineSetter__", "__lookupGetter__", "__lookupSetter__"}

  /** The value of `map[type]` on the label object: a label, or an inherited
      member (a function or the prototype object), which is truthy. */
  datatype LookupValue = Label(text: string) | InheritedMember(key: string)

  /** The lookup as written: an object literal indexed with the ticket type,
      so inherited keys find the inherited member and skip the fallback. */
  function TicketLabelAsWritten(ticketType: string): (r: LookupValue)
    ensures r.Label? ==> r.text in TicketLabels.Values
  {
    assert TicketLabels["standard"] == DefaultLabel;
    if ticketType in TicketLabels then Label(TicketLabels[ticketType])
    else if ticketType in InheritedKeys then InheritedMember(ticketType)
    else Label(DefaultLabel)
  }

  /** For an inherited key the written lookup yields no label at all. */
  lemma InheritedKeyEscapesFallback(ticketType: string)
    requires ticketType in InheritedKeys
    ensures TicketLabelAsWritten(ticketType) == InheritedMember(ticketType)
    ensures TicketLabelAsWritten(ticketType) != Label(TicketLabel(ticketType))
  {
    assert ticketType !in TicketLabels;
  }

  /** Everywhere else the written lookup and TicketLabel agree. */
  lemma TicketLabelAgreesElsewhere(ticketType: string)
    requires ticketType !in InheritedKeys
    ensures TicketLabelAsWritten(ticketType) == Label(TicketLabel(ticketType))
  {
  }
}
